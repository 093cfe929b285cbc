/**
 Clients blocked on keys (blocked.c): the two-way index between clients and keys, the counters,
 the queue of unblocked clients, and the service loop that runs after a command made keys ready.

 Clients are numbers. A list node is a number too, so that removing a client from a key's list
 goes through the node the client recorded, as in the source.
 */
module Blocked {
  import opened Options

  datatype Key = Key(db: nat, name: string)

  /** BLOCKED_NONE, _LIST, _ZSET, _STREAM, _POSTPONE, _SHUTDOWN */
  datatype BType = NotBlocked | OnList | OnZset | OnStream | Postponed | OnShutdown

  predicate OnKeys(b: BType) { b.OnList? || b.OnZset? || b.OnStream? }

  datatype Side = Head | Tail

  /** What a blocked list or sorted set command will do once served. */
  datatype Wish = Wish(target: Option<Key>, wherefrom: Side, whereto: Side, count: int, group: bool)

  const NO_WISH := Wish(None, Head, Head, -1, false)

  /** `blocked` and `queued` are the flags CLIENT_BLOCKED and CLIENT_UNBLOCKED; `keys` is bpop.keys with
      the recorded list nodes. */
  datatype Client = Client(blocked: bool, queued: bool, btype: BType, keys: map<Key, nat>, wish: Wish, postponedNode: Option<nat>)

  datatype Node = Node(id: nat, client: nat)

  /** A sorted set is its members, from the lowest score up. */
  datatype Obj = List(items: seq<string>) | Zset(members: seq<string>) | Stream | Other

  // ------------------------------------------------------------------ the invariant, part by part

  ghost predicate Coherent(cl: Client) {
    && (cl.blocked <==> cl.btype != NotBlocked)
    && (OnKeys(cl.btype) <==> cl.keys != map[])
    && (cl.btype == Postponed <==> cl.postponedNode.Some?)
  }

  ghost predicate FlagsAgree(cs: map<nat, Client>) {
    forall c | c in cs :: Coherent(cs[c])
  }

  ghost predicate DistinctNodes(l: seq<Node>) {
    forall i, j | 0 <= i < j < |l| :: l[i].id != l[j].id
  }

  ghost predicate Recorded(cs: map<nat, Client>, k: Key, e: Node) {
    e.client in cs && k in cs[e.client].keys && cs[e.client].keys[k] == e.id
  }

  ghost predicate EntriesRecorded(cs: map<nat, Client>, bk: map<Key, seq<Node>>) {
    forall k, e | k in bk && e in bk[k] :: Recorded(cs, k, e)
  }

  ghost predicate RecordsListed(cs: map<nat, Client>, bk: map<Key, seq<Node>>) {
    forall c, k | c in cs && k in cs[c].keys :: k in bk && Node(cs[c].keys[k], c) in bk[k]
  }

  ghost predicate ListsGood(bk: map<Key, seq<Node>>) {
    forall k | k in bk :: bk[k] != [] && DistinctNodes(bk[k])
  }

  /** Entry `Node(n, c)` stands in the list of `k` exactly when client `c` recorded node `n` for key `k`. */
  ghost predicate Indexed(cs: map<nat, Client>, bk: map<Key, seq<Node>>) {
    EntriesRecorded(cs, bk) && RecordsListed(cs, bk) && ListsGood(bk)
  }

  ghost predicate NodesBelow(bk: map<Key, seq<Node>>, pp: seq<Node>, next: nat) {
    && (forall k, e | k in bk && e in bk[k] :: e.id < next)
    && (forall e | e in pp :: e.id < next)
  }

  ghost predicate PostponedIndexed(cs: map<nat, Client>, pp: seq<Node>) {
    && (forall e | e in pp :: e.client in cs && cs[e.client].postponedNode == Some(e.id))
    && (forall c | c in cs && cs[c].postponedNode.Some? :: Node(cs[c].postponedNode.value, c) in pp)
    && DistinctNodes(pp)
  }

  ghost function OfType(cs: map<nat, Client>, b: BType): set<nat> { set c | c in cs && cs[c].btype == b }

  ghost function AllBlocked(cs: map<nat, Client>): set<nat> { set c | c in cs && cs[c].blocked }

  ghost predicate Counted(cs: map<nat, Client>, total: nat, byType: map<BType, nat>) {
    && total == |AllBlocked(cs)|
    && (forall b :: b in byType)
    && (forall b | b != NotBlocked :: byType[b] == |OfType(cs, b)|)
  }

  ghost predicate NoRepeats<T>(l: seq<T>) {
    forall i, j | 0 <= i < j < |l| :: l[i] != l[j]
  }

  /** A client is in the queue of unblocked clients exactly once iff its flag is set. */
  ghost predicate Queued(cs: map<nat, Client>, q: seq<nat>) {
    && NoRepeats(q)
    && (forall c | c in q :: c in cs)
    && (forall c | c in cs :: cs[c].queued <==> c in q)
  }

  predicate StoredWell(store: map<Key, Obj>) {
    forall k | k in store ::
      match store[k]
      case List(items) => items != []
      case Zset(members) => members != []
      case _ => true
  }

  // ------------------------------------------------------------------ removing a client from the lists

  /** listDelNode */
  function DelNode(l: seq<Node>, id: nat): seq<Node> {
    if |l| == 0 then [] else if l[0].id == id then l[1..] else [l[0]] + DelNode(l[1..], id)
  }

  function Without(l: seq<Node>, c: nat): seq<Node> {
    if |l| == 0 then [] else (if l[0].client == c then [] else [l[0]]) + Without(l[1..], c)
  }

  lemma {:induction false} WithoutIs(l: seq<Node>, c: nat)
    ensures forall e :: e in Without(l, c) <==> e in l && e.client != c
    ensures DistinctNodes(l) ==> DistinctNodes(Without(l, c))
  {
    if |l| > 0 {
      WithoutIs(l[1..], c);
      assert l == [l[0]] + l[1..];
    }
  }

  lemma {:induction false} WithoutNobody(l: seq<Node>, c: nat)
    requires forall e | e in l :: e.client != c
    ensures Without(l, c) == l
  {
    if |l| > 0 {
      assert l[0] in l;
      WithoutNobody(l[1..], c);
      assert l == [l[0]] + l[1..];
    }
  }

  /** Removing the recorded node removes the client, because it stands in the list once. */
  lemma {:induction false} DelNodeIsWithout(l: seq<Node>, id: nat, c: nat)
    requires DistinctNodes(l) && Node(id, c) in l
    requires forall e | e in l && e.client == c :: e.id == id
    ensures DelNode(l, id) == Without(l, c)
  {
    assert l == [l[0]] + l[1..];
    if l[0].id == id {
      var i :| 0 <= i < |l| && l[i] == Node(id, c);
      assert i == 0;
      forall e | e in l[1..] ensures e.client != c {
        var j :| 0 <= j < |l[1..]| && l[1..][j] == e;
        assert l[j + 1] == e && e in l;
      }
      WithoutNobody(l[1..], c);
    } else {
      assert l[0] in l;
      forall e | e in l[1..] ensures e in l { }
      DelNodeIsWithout(l[1..], id, c);
    }
  }

  /** Every list without the client, and no list left empty. */
  function DropClient(bk: map<Key, seq<Node>>, c: nat): map<Key, seq<Node>> {
    map k | k in bk && Without(bk[k], c) != [] :: Without(bk[k], c)
  }

  lemma DropKeepsIndex(cs: map<nat, Client>, bk: map<Key, seq<Node>>, c: nat, idle: Client)
    requires Indexed(cs, bk) && c in cs && idle.keys == map[]
    ensures Indexed(cs[c := idle], DropClient(bk, c))
  {
    forall k | k in bk
      ensures forall e :: e in Without(bk[k], c) <==> e in bk[k] && e.client != c
      ensures DistinctNodes(Without(bk[k], c))
    {
      WithoutIs(bk[k], c);
    }
    hide DistinctNodes, Without;
    var cs', bk' := cs[c := idle], DropClient(bk, c);
    assert EntriesRecorded(cs', bk') by {
      forall k, e | k in bk' && e in bk'[k] ensures Recorded(cs', k, e) {
        assert Recorded(cs, k, e);
      }
    }
    assert RecordsListed(cs', bk') by {
      forall d, k | d in cs' && k in cs'[d].keys ensures k in bk' && Node(cs'[d].keys[k], d) in bk'[k] {
        assert Node(cs[d].keys[k], d) in Without(bk[k], c);
      }
    }
  }

  lemma AppendDistinct(l: seq<Node>, e: Node)
    requires DistinctNodes(l) && forall x | x in l :: x.id != e.id
    ensures DistinctNodes(l + [e])
  {
    forall i, j | 0 <= i < j < |l + [e]| ensures (l + [e])[i].id != (l + [e])[j].id {
      assert l[i] in l;
    }
  }

  /** The client goes to the end of the key's list with a fresh node. */
  lemma AppendKeepsIndex(cs: map<nat, Client>, bk: map<Key, seq<Node>>, c: nat, k: Key, n: nat, cl: Client)
    requires Indexed(cs, bk) && c in cs && k !in cs[c].keys
    requires forall k', e | k' in bk && e in bk[k'] :: e.id < n
    requires cl.keys == cs[c].keys[k := n]
    ensures Indexed(cs[c := cl], bk[k := ListAt(bk, k) + [Node(n, c)]])
  {
    var l := ListAt(bk, k);
    var l' := l + [Node(n, c)];
    var cs', bk' := cs[c := cl], bk[k := l'];
    assert ListsGood(bk') by { AppendDistinct(l, Node(n, c)); }
    hide DistinctNodes;
    assert forall e :: e in l' <==> e in l || e == Node(n, c);
    assert EntriesRecorded(cs', bk') by {
      forall j, e | j in bk' && e in bk'[j] ensures Recorded(cs', j, e) {
        if j != k || e != Node(n, c) { assert Recorded(cs, j, e); }
      }
    }
    assert RecordsListed(cs', bk');
  }

  lemma SetsChange(cs: map<nat, Client>, c: nat, cl: Client)
    requires c in cs
    ensures AllBlocked(cs[c := cl]) == if cl.blocked then AllBlocked(cs) + {c} else AllBlocked(cs) - {c}
    ensures forall b :: OfType(cs[c := cl], b) == if cl.btype == b then OfType(cs, b) + {c} else OfType(cs, b) - {c}
    ensures c in AllBlocked(cs) <==> cs[c].blocked
    ensures forall b :: c in OfType(cs, b) <==> cs[c].btype == b
  {
  }

  lemma CountBlock(cs: map<nat, Client>, total: nat, byType: map<BType, nat>, c: nat, cl: Client)
    requires Counted(cs, total, byType) && c in cs && !cs[c].blocked && cs[c].btype == NotBlocked
    requires cl.blocked && cl.btype != NotBlocked
    ensures Counted(cs[c := cl], total + 1, byType[cl.btype := byType[cl.btype] + 1])
  {
    SetsChange(cs, c, cl);
    hide AllBlocked, OfType;
  }

  lemma CountUnblock(cs: map<nat, Client>, total: nat, byType: map<BType, nat>, c: nat, cl: Client)
    requires Counted(cs, total, byType) && c in cs && cs[c].blocked && cs[c].btype != NotBlocked
    requires !cl.blocked && cl.btype == NotBlocked
    ensures total > 0 && byType[cs[c].btype] > 0
    ensures Counted(cs[c := cl], total - 1, byType[cs[c].btype := byType[cs[c].btype] - 1])
  {
    SetsChange(cs, c, cl);
    hide AllBlocked, OfType;
  }

  lemma CountSame(cs: map<nat, Client>, total: nat, byType: map<BType, nat>, c: nat, cl: Client)
    requires Counted(cs, total, byType) && c in cs && cl.blocked == cs[c].blocked && cl.btype == cs[c].btype
    ensures Counted(cs[c := cl], total, byType)
  {
    SetsChange(cs, c, cl);
    assert AllBlocked(cs[c := cl]) == AllBlocked(cs);
    forall b ensures OfType(cs[c := cl], b) == OfType(cs, b) { }
  }

  lemma IndexSame(cs: map<nat, Client>, bk: map<Key, seq<Node>>, c: nat, cl: Client)
    requires Indexed(cs, bk) && c in cs && cl.keys == cs[c].keys
    ensures Indexed(cs[c := cl], bk)
  {
    forall k, e | k in bk && e in bk[k] ensures Recorded(cs[c := cl], k, e) { assert Recorded(cs, k, e); }
  }

  lemma PostponeSame(cs: map<nat, Client>, pp: seq<Node>, c: nat, cl: Client)
    requires PostponedIndexed(cs, pp) && c in cs && cl.postponedNode == cs[c].postponedNode
    ensures PostponedIndexed(cs[c := cl], pp)
  {
  }

  lemma PostponeAdds(cs: map<nat, Client>, pp: seq<Node>, c: nat, n: nat, cl: Client)
    requires PostponedIndexed(cs, pp) && c in cs && cs[c].postponedNode.None? && cl.postponedNode == Some(n)
    requires forall e | e in pp :: e.id < n
    ensures PostponedIndexed(cs[c := cl], pp + [Node(n, c)])
  {
    var pp' := pp + [Node(n, c)];
    assert forall e :: e in pp' <==> e in pp || e == Node(n, c);
    assert DistinctNodes(pp') by {
      forall i, j | 0 <= i < j < |pp'| ensures pp'[i].id != pp'[j].id {
        if j == |pp| { assert pp[i] in pp; }
      }
    }
  }

  lemma PostponeDrops(cs: map<nat, Client>, pp: seq<Node>, c: nat, cl: Client)
    requires PostponedIndexed(cs, pp) && c in cs && cs[c].postponedNode.Some? && cl.postponedNode.None?
    ensures PostponedIndexed(cs[c := cl], DelNode(pp, cs[c].postponedNode.value))
    ensures forall e | e in DelNode(pp, cs[c].postponedNode.value) :: e in pp
  {
    DelNodeIsWithout(pp, cs[c].postponedNode.value, c);
    WithoutIs(pp, c);
  }

  lemma QueueSame(cs: map<nat, Client>, q: seq<nat>, c: nat, cl: Client)
    requires Queued(cs, q) && c in cs && cl.queued == cs[c].queued
    ensures Queued(cs[c := cl], q)
  {
  }

  lemma EveryType(b: BType)
    ensures b in {NotBlocked, OnList, OnZset, OnStream, Postponed, OnShutdown}
  {
  }

  lemma EnqueueKeeps(cs: map<nat, Client>, q: seq<nat>, c: nat, cl: Client)
    requires Queued(cs, q) && c in cs && cl.queued
    ensures Queued(cs[c := cl], if cs[c].queued then q else q + [c])
  {
  }

  /** The bookkeeping of blocked clients as one value. */
  datatype Book = Book(cs: map<nat, Client>, bk: map<Key, seq<Node>>, pp: seq<Node>, next: nat,
                       total: nat, byType: map<BType, nat>, queue: seq<nat>)

  ghost predicate Sound(b: Book) {
    && Indexed(b.cs, b.bk)
    && NodesBelow(b.bk, b.pp, b.next)
    && PostponedIndexed(b.cs, b.pp)
    && Counted(b.cs, b.total, b.byType)
    && Queued(b.cs, b.queue)
  }

  /** Fields the books do not depend on may change. */
  lemma SoundSame(b: Book, c: nat, cl: Client)
    requires Sound(b) && c in b.cs && cl == b.cs[c].(wish := cl.wish)
    ensures Sound(b.(cs := b.cs[c := cl]))
  {
    hide Indexed, NodesBelow, PostponedIndexed, Counted, Queued;
    IndexSame(b.cs, b.bk, c, cl);
    PostponeSame(b.cs, b.pp, c, cl);
    CountSame(b.cs, b.total, b.byType, c, cl);
    QueueSame(b.cs, b.queue, c, cl);
  }

  function ListAt(bk: map<Key, seq<Node>>, k: Key): seq<Node> { if k in bk then bk[k] else [] }

  /** Each of the keys has the client at the end of its list; the other lists are as before. */
  ghost predicate ListsJoined(before: map<Key, seq<Node>>, after: map<Key, seq<Node>>, keys: map<Key, nat>, c: nat) {
    forall k :: ListAt(after, k) == ListAt(before, k) + if k in keys then [Node(keys[k], c)] else []
  }

  lemma NoneJoined(bk: map<Key, seq<Node>>, c: nat)
    ensures ListsJoined(bk, bk, map[], c)
  {
  }

  lemma OneJoins(before: map<Key, seq<Node>>, after: map<Key, seq<Node>>, keys: map<Key, nat>, c: nat, k: Key, n: nat)
    requires ListsJoined(before, after, keys, c) && k !in keys
    ensures ListsJoined(before, after[k := ListAt(after, k) + [Node(n, c)]], keys[k := n], c)
  {
  }

  /** The client joins the end of one key's list. */
  function Joined(b: Book, c: nat, k: Key): Book
    requires c in b.cs
  {
    b.(cs := b.cs[c := b.cs[c].(keys := b.cs[c].keys[k := b.next])],
       bk := b.bk[k := ListAt(b.bk, k) + [Node(b.next, c)]],
       next := b.next + 1)
  }

  lemma SoundJoin(b: Book, c: nat, k: Key)
    requires Sound(b) && c in b.cs && k !in b.cs[c].keys
    ensures Sound(Joined(b, c, k))
  {
    hide Indexed, PostponedIndexed, Counted, Queued, ListAt;
    var cl := b.cs[c].(keys := b.cs[c].keys[k := b.next]);
    AppendKeepsIndex(b.cs, b.bk, c, k, b.next, cl);
    AppendKeepsBelow(b.bk, b.pp, b.next, k, c);
    PostponeSame(b.cs, b.pp, c, cl);
    CountSame(b.cs, b.total, b.byType, c, cl);
    QueueSame(b.cs, b.queue, c, cl);
  }

  /** The client becomes blocked, and the counters with it. */
  function Counting(b: Book, c: nat, btype: BType): Book
    requires c in b.cs && btype in b.byType
  {
    b.(cs := b.cs[c := b.cs[c].(blocked := true, btype := btype)],
       total := b.total + 1, byType := b.byType[btype := b.byType[btype] + 1])
  }

  lemma SoundBlock(b: Book, c: nat, btype: BType)
    requires Sound(b) && c in b.cs && !b.cs[c].blocked && b.cs[c].btype == NotBlocked && btype != NotBlocked
    ensures btype in b.byType && Sound(Counting(b, c, btype))
  {
    hide Indexed, NodesBelow, PostponedIndexed, Counted, Queued;
    var cl := b.cs[c].(blocked := true, btype := btype);
    TypesPresent(b.cs, b.total, b.byType);
    IndexSame(b.cs, b.bk, c, cl);
    PostponeSame(b.cs, b.pp, c, cl);
    CountBlock(b.cs, b.total, b.byType, c, cl);
    QueueSame(b.cs, b.queue, c, cl);
  }

  function PostponedBook(b: Book, c: nat): Book
    requires c in b.cs
  {
    b.(cs := b.cs[c := b.cs[c].(postponedNode := Some(b.next))], pp := b.pp + [Node(b.next, c)], next := b.next + 1)
  }

  lemma SoundPostpone(b: Book, c: nat)
    requires Sound(b) && c in b.cs && b.cs[c].postponedNode.None?
    ensures Sound(PostponedBook(b, c))
  {
    hide Indexed, PostponedIndexed, Counted, Queued;
    var cl := b.cs[c].(postponedNode := Some(b.next));
    PostponeAdds(b.cs, b.pp, c, b.next, cl);
    IndexSame(b.cs, b.bk, c, cl);
    CountSame(b.cs, b.total, b.byType, c, cl);
    QueueSame(b.cs, b.queue, c, cl);
  }

  /** What is left of a client once it is unblocked: queued, and waiting for nothing. */
  function Idle(cl: Client): Client {
    Client(false, true, NotBlocked, map[], if OnKeys(cl.btype) then NO_WISH else cl.wish, None)
  }

  function Unblocked(b: Book, c: nat): Book
    requires c in b.cs && b.cs[c].btype in b.byType && b.total > 0 && b.byType[b.cs[c].btype] > 0
  {
    var cl := b.cs[c];
    b.(cs := b.cs[c := Idle(cl)],
       bk := DropClient(b.bk, c),
       pp := if cl.postponedNode.Some? then DelNode(b.pp, cl.postponedNode.value) else b.pp,
       total := b.total - 1,
       byType := b.byType[cl.btype := b.byType[cl.btype] - 1],
       queue := if cl.queued then b.queue else b.queue + [c])
  }

  lemma SoundUnblock(b: Book, c: nat)
    requires Sound(b) && c in b.cs && b.cs[c].blocked && b.cs[c].btype != NotBlocked
    ensures b.cs[c].btype in b.byType && b.total > 0 && b.byType[b.cs[c].btype] > 0
    ensures Sound(Unblocked(b, c))
  {
    hide Indexed, PostponedIndexed, Counted, Queued, DropClient;
    var cl := Idle(b.cs[c]);
    TypesPresent(b.cs, b.total, b.byType);
    CountUnblock(b.cs, b.total, b.byType, c, cl);
    EnqueueKeeps(b.cs, b.queue, c, cl);
    DropKeepsIndex(b.cs, b.bk, c, cl);
    DropKeepsBelow(b.bk, b.pp, b.next, c);
    if b.cs[c].postponedNode.Some? {
      PostponeDrops(b.cs, b.pp, c, cl);
    } else {
      PostponeSame(b.cs, b.pp, c, cl);
    }
  }

  lemma DropKeepsBelow(bk: map<Key, seq<Node>>, pp: seq<Node>, next: nat, c: nat)
    requires NodesBelow(bk, pp, next)
    ensures NodesBelow(DropClient(bk, c), pp, next)
  {
    forall k | k in bk ensures forall e :: e in Without(bk[k], c) ==> e in bk[k] { WithoutIs(bk[k], c); }
  }

  lemma AppendKeepsBelow(bk: map<Key, seq<Node>>, pp: seq<Node>, next: nat, k: Key, c: nat)
    requires NodesBelow(bk, pp, next)
    ensures NodesBelow(bk[k := ListAt(bk, k) + [Node(next, c)]], pp, next + 1)
  {
  }

  lemma TypesPresent(cs: map<nat, Client>, total: nat, byType: map<BType, nat>)
    requires Counted(cs, total, byType)
    ensures forall b :: b in byType
  {
  }

  /** Key by key: a list the client is in loses it through its node, the others stay. */
  lemma DropAt(cs: map<nat, Client>, bk: map<Key, seq<Node>>, c: nat, k: Key)
    requires Indexed(cs, bk) && c in cs
    ensures k in cs[c].keys ==> k in bk && DelNode(bk[k], cs[c].keys[k]) == Without(bk[k], c)
    ensures k !in cs[c].keys && k in bk ==> Without(bk[k], c) == bk[k] && bk[k] != []
  {
    if k in cs[c].keys {
      DelNodeIsWithout(bk[k], cs[c].keys[k], c);
    } else if k in bk {
      WithoutNobody(bk[k], c);
    }
  }

  // ------------------------------------------------------------------ serving one client

  /** Whether a client blocked for type `b` can be served from object `o`. */
  predicate Fits(b: BType, o: Obj) { (b.OnList? && o.List?) || (b.OnZset? && o.Zset?) }

  /** Some client waits on `k` and could be served from what is stored there. */
  ghost predicate Waiting(cs: map<nat, Client>, store: map<Key, Obj>, k: Key) {
    k in store && exists c | c in cs :: k in cs[c].keys && Fits(cs[c].btype, store[k])
  }

  /** That is a client of BLPOP and its kin before a list, or one of BZPOPMIN and its kin before a sorted set. */
  lemma WaitingIff(cs: map<nat, Client>, store: map<Key, Obj>, k: Key)
    ensures Waiting(cs, store, k) <==>
      (k in store && exists c | c in cs :: k in cs[c].keys && ((cs[c].btype == OnList && store[k].List?) || (cs[c].btype == OnZset && store[k].Zset?)))
  {
  }

  /** Every such key is queued, `but` aside. */
  ghost predicate NoneLost(cs: map<nat, Client>, store: map<Key, Obj>, ready: set<Key>, but: set<Key>) {
    forall k | k !in but && Waiting(cs, store, k) :: k in ready
  }

  function PopCount(count: int, len: nat): nat { if count <= 0 then (if len > 0 then 1 else 0) else if count > len then len else count }

  function Rest(items: seq<string>, side: Side, n: nat): seq<string>
    requires n <= |items|
  {
    if side.Head? then items[n..] else items[..|items| - n]
  }

  function Push(items: seq<string>, v: string, side: Side): seq<string> {
    if side.Head? then [v] + items else items + [v]
  }

  function StoreList(store: map<Key, Obj>, k: Key, items: seq<string>): map<Key, Obj> {
    if items == [] then store - {k} else store[k := List(items)]
  }

  /** The dataset after `serveClientBlockedOnList`: BLPOP and BLMPOP take elements, BLMOVE moves one unless
      the destination holds another type; an emptied list is deleted. */
  function ServedList(store: map<Key, Obj>, k: Key, w: Wish): map<Key, Obj>
    requires k in store && store[k].List? && store[k].items != []
  {
    var items := store[k].items;
    match w.target
    case None => StoreList(store, k, Rest(items, w.wherefrom, PopCount(w.count, |items|)))
    case Some(d) =>
      if d in store && !store[d].List? then store
      else
        var v := if w.wherefrom.Head? then items[0] else items[|items| - 1];
        var rest := Rest(items, w.wherefrom, 1);
        if d == k then store[k := List(Push(rest, v, w.whereto))]
        else
          var moved := Push(if d in store then store[d].items else [], v, w.whereto);
          StoreList(store[d := List(moved)], k, rest)
  }

  /** The dataset after one client blocked on `k` is served; a sorted set loses elements likewise. */
  function Served(store: map<Key, Obj>, k: Key, w: Wish): map<Key, Obj>
    requires k in store && StoredWell(store)
  {
    match store[k]
    case List(_) => ServedList(store, k, w)
    case Zset(members) =>
      var left := Rest(members, w.wherefrom, PopCount(w.count, |members|));
      if left == [] then store - {k} else store[k := Zset(left)]
    case _ => store
  }

  /** BLPOP and BRPOP: the first or the last element goes and the others stay, in their order. */
  lemma PopTakesOne(store: map<Key, Obj>, k: Key, w: Wish, x: string, items: seq<string>)
    requires w.target.None? && w.count <= 1 && StoredWell(store)
    requires k in store && store[k] == List(if w.wherefrom == Head then [x] + items else items + [x])
    ensures Served(store, k, w) == if items == [] then store - {k} else store[k := List(items)]
  {
    assert ([x] + items)[1..] == items;
    assert (items + [x])[..|items|] == items;
  }

  /** BLMPOP with a count takes that many from its end, or all there are. */
  lemma PopTakesCount(store: map<Key, Obj>, k: Key, w: Wish, front: seq<string>, items: seq<string>)
    requires w.target.None? && StoredWell(store) && front != [] && (w.count == |front| || (w.count > |front| && items == []))
    requires k in store && store[k] == List(if w.wherefrom == Head then front + items else items + front)
    ensures Served(store, k, w) == if items == [] then store - {k} else store[k := List(items)]
  {
    assert (front + items)[|front|..] == items;
    assert (items + front)[..|items|] == items;
  }

  /** BLMOVE to another key: the element from the one end of the source is at the asked end of the target. */
  lemma MovePutsOne(store: map<Key, Obj>, k: Key, w: Wish, d: Key, x: string, items: seq<string>)
    requires w.target == Some(d) && d != k && StoredWell(store) && (d in store ==> store[d].List?)
    requires k in store && store[k] == List(if w.wherefrom == Head then [x] + items else items + [x])
    ensures var after, old' := Served(store, k, w), if d in store then store[d].items else [];
      && d in after && after[d] == List(if w.whereto == Head then [x] + old' else old' + [x])
      && (if items == [] then k !in after else k in after && after[k] == List(items))
      && forall j | j != k && j != d :: (j in after <==> j in store) && (j in store ==> after[j] == store[j])
  {
    assert ([x] + items)[1..] == items;
    assert (items + [x])[..|items|] == items;
  }

  /** BLMOVE within one key turns the list. */
  lemma MoveTurns(store: map<Key, Obj>, k: Key, w: Wish, x: string, items: seq<string>)
    requires w.target == Some(k) && StoredWell(store)
    requires k in store && store[k] == List(if w.wherefrom == Head then [x] + items else items + [x])
    ensures Served(store, k, w) == store[k := List(if w.whereto == Head then [x] + items else items + [x])]
  {
    assert ([x] + items)[1..] == items;
    assert (items + [x])[..|items|] == items;
  }

  /** BZPOPMIN and its kin take one member, or as many as asked for, or all, from the low end, BZPOPMAX from the high end. */
  lemma ZsetGives(store: map<Key, Obj>, k: Key, w: Wish, gone: seq<string>, rest: seq<string>)
    requires StoredWell(store) && k in store && gone != []
    requires (w.count <= 1 && |gone| == 1) || w.count == |gone| || (w.count > |gone| && rest == [])
    requires store[k] == Zset(if w.wherefrom == Head then gone + rest else rest + gone)
    ensures Served(store, k, w) == if rest == [] then store - {k} else store[k := Zset(rest)]
  {
    assert (gone + rest)[|gone|..] == rest;
    assert (rest + gone)[..|rest|] == rest;
  }

  /** A BLMOVE whose target is no list changes nothing. */
  lemma MoveRefused(store: map<Key, Obj>, k: Key, w: Wish)
    requires StoredWell(store) && k in store && store[k].List? && w.target.Some? && w.target.value in store && !store[w.target.value].List?
    ensures Served(store, k, w) == store
  {
  }

  predicate SameKind(a: Obj, b: Obj) { (a.List? <==> b.List?) && (a.Zset? <==> b.Zset?) }

  /** Only the key and the target change, kinds stay, and only the target can be new. */
  lemma ServedFrame(store: map<Key, Obj>, k: Key, w: Wish)
    requires StoredWell(store) && k in store
    ensures var after := Served(store, k, w);
      && StoredWell(after)
      && (forall j | j in store && j != k :: j in after)
      && (forall j | j in store && j in after :: SameKind(store[j], after[j]))
      && (forall j | j in after && j !in store :: store[k].List? && w.target == Some(j) && after[j].List?)
  {
  }

  // ------------------------------------------------------------------ who is served, in which order, with what

  /** A client blocked on a list or a sorted set gets what it waits for from one of its keys. */
  datatype Service = Service(client: nat, key: Key)

  function AfterOne(cs: map<nat, Client>, store: map<Key, Obj>, s: Service): map<Key, Obj> {
    if s.client in cs && s.key in store && StoredWell(store) then Served(store, s.key, cs[s.client].wish) else store
  }

  /** The dataset after some clients are served one after the other. */
  function After(cs: map<nat, Client>, store: map<Key, Obj>, log: seq<Service>): map<Key, Obj> {
    if |log| == 0 then store else AfterOne(cs, After(cs, store, log[..|log| - 1]), log[|log| - 1])
  }

  /** The clients of a key's list that are blocked for `b`, first blocked first. */
  function Receivers(cs: map<nat, Client>, k: Key, l: seq<Node>, b: BType): seq<Service> {
    if |l| == 0 then []
    else
      var c := l[|l| - 1].client;
      Receivers(cs, k, l[..|l| - 1], b) + if c in cs && cs[c].btype == b then [Service(c, k)] else []
  }

  ghost predicate InLog(log: seq<Service>, c: nat) { exists i | 0 <= i < |log| :: log[i].client == c }

  /** Exactly the clients of the log and those of `streams` were unblocked, and nothing else happened to any client. */
  ghost predicate Released(before: map<nat, Client>, after: map<nat, Client>, log: seq<Service>, streams: set<nat>) {
    && before.Keys == after.Keys
    && forall c | c in before :: after[c] == if InLog(log, c) || c in streams then Idle(before[c]) else before[c]
  }

  /** Everybody in the log waits for a list or a sorted set, on that key, and is served once. */
  ghost predicate Due(cs: map<nat, Client>, log: seq<Service>) {
    && (forall i | 0 <= i < |log| :: log[i].client in cs && log[i].key in cs[log[i].client].keys && !cs[log[i].client].btype.OnStream?)
    && (forall i, j | 0 <= i < j < |log| :: log[i].client != log[j].client)
  }

  /** The key is there for every client of the log. */
  ghost predicate StaysUntil(cs: map<nat, Client>, store: map<Key, Obj>, log: seq<Service>, k: Key) {
    forall m | 0 <= m < |log| :: k in After(cs, store, log[..m])
  }

  lemma StaysLonger(cs: map<nat, Client>, store: map<Key, Obj>, log: seq<Service>, s: Service, k: Key)
    requires StaysUntil(cs, store, log, k) && k in After(cs, store, log)
    ensures StaysUntil(cs, store, log + [s], k)
  {
    hide After;
    forall m | 0 <= m < |log + [s]| ensures k in After(cs, store, (log + [s])[..m]) {
      assert (log + [s])[..m] == log[..m];
      assert log[..|log|] == log;
    }
  }

  /** The stream clients of `k` among `due`. */
  ghost function StreamClients(cs: map<nat, Client>, k: Key, due: set<nat>): set<nat> {
    set c | c in cs && cs[c].btype == OnStream && k in cs[c].keys && c in due
  }

  ghost function Among(l: seq<Node>): set<nat> { set e | e in l :: e.client }

  lemma AmongNext(l: seq<Node>, i: nat)
    requires i < |l|
    ensures Among(l[..i + 1]) == Among(l[..i]) + {l[i].client}
  {
    assert l[..i + 1] == l[..i] + [l[i]];
    assert forall e :: e in l[..i + 1] <==> e in l[..i] || e == l[i];
  }

  lemma AmongAll(cs: map<nat, Client>, k: Key, l: seq<Node>, due: set<nat>)
    requires forall c | c in cs && k in cs[c].keys :: exists p | 0 <= p < |l| :: l[p].client == c
    ensures StreamClients(cs, k, due) * Among(l[..|l|]) == StreamClients(cs, k, due)
  {
    assert l[..|l|] == l;
    forall c | c in StreamClients(cs, k, due) ensures c in Among(l) {
      var p :| 0 <= p < |l| && l[p].client == c;
      assert l[p] in l;
    }
  }

  ghost function Groups(cs: map<nat, Client>): set<nat> { set c | c in cs && cs[c].wish.group }

  lemma ReleasedSelf(cs: map<nat, Client>)
    ensures Released(cs, cs, [], {})
  {
  }

  lemma InLogConcat(a: seq<Service>, b: seq<Service>, c: nat)
    ensures InLog(a + b, c) <==> InLog(a, c) || InLog(b, c)
  {
    assert forall i | 0 <= i < |a| :: (a + b)[i] == a[i];
    assert forall i | 0 <= i < |b| :: (a + b)[|a| + i] == b[i];
  }

  lemma ReleasedTwice(cs0: map<nat, Client>, cs1: map<nat, Client>, cs2: map<nat, Client>,
                      log: seq<Service>, more: seq<Service>, streams: set<nat>, others: set<nat>)
    requires Released(cs0, cs1, log, streams) && Released(cs1, cs2, more, others)
    ensures Released(cs0, cs2, log + more, streams + others)
  {
    hide InLog;
    forall c ensures InLog(log + more, c) <==> InLog(log, c) || InLog(more, c) { InLogConcat(log, more, c); }
  }

  lemma {:induction false} AfterConcat(cs: map<nat, Client>, store: map<Key, Obj>, a: seq<Service>, b: seq<Service>)
    ensures After(cs, store, a + b) == After(cs, After(cs, store, a), b)
    decreases |b|
  {
    hide AfterOne;
    if |b| == 0 {
      assert a + b == a;
    } else {
      AfterConcat(cs, store, a, b[..|b| - 1]);
      assert (a + b)[..|a + b| - 1] == a + b[..|b| - 1];
    }
  }

  /** Serving depends on the wishes of the clients in the log only. */
  lemma {:induction false} AfterSame(cs: map<nat, Client>, cs': map<nat, Client>, store: map<Key, Obj>, log: seq<Service>)
    requires forall i | 0 <= i < |log| :: log[i].client in cs && log[i].client in cs' && cs[log[i].client] == cs'[log[i].client]
    ensures After(cs, store, log) == After(cs', store, log)
  {
    hide Served, StoredWell;
    if |log| > 0 { AfterSame(cs, cs', store, log[..|log| - 1]); }
  }

  /** A log of clients that are still blocked goes on from one that has released others. */
  lemma GoesOn(cs0: map<nat, Client>, cs1: map<nat, Client>, store0: map<Key, Obj>, log: seq<Service>, streams: set<nat>, more: seq<Service>)
    requires Released(cs0, cs1, log, streams) && Due(cs0, log) && Due(cs1, more)
    ensures Due(cs0, log + more) && After(cs0, store0, log + more) == After(cs1, After(cs0, store0, log), more)
  {
    hide After;
    forall i | 0 <= i < |more| ensures more[i].client in cs0 && cs0[more[i].client] == cs1[more[i].client] && !InLog(log, more[i].client) {
      var c := more[i].client;
      assert c in cs1 && cs1[c].keys != map[];
    }
    forall i, j | 0 <= i < j < |log + more| ensures (log + more)[i].client != (log + more)[j].client {
      if i < |log| && j >= |log| { assert !InLog(log, more[j - |log|].client); }
    }
    AfterSame(cs0, cs1, After(cs0, store0, log), more);
    AfterConcat(cs0, store0, log, more);
  }

  // ------------------------------------------------------------------ nothing is lost

  /** What a stored value holds: the items of a list, the members of a sorted set. */
  datatype Elem = Item(value: string)

  function Copies(items: seq<string>): multiset<Elem> {
    if |items| == 0 then multiset{} else Copies(items[..|items| - 1]) + multiset{Item(items[|items| - 1])}
  }

  function Contents(o: Obj): multiset<Elem> {
    match o
    case List(items) => Copies(items)
    case Zset(members) => Copies(members)
    case _ => multiset{}
  }

  /** All elements of the dataset. */
  ghost function Elements(store: map<Key, Obj>): multiset<Elem>
    decreases |store|
  {
    if store == map[] then multiset{}
    else
      var k :| k in store;
      Contents(store[k]) + Elements(store - {k})
  }

  /** What a client gets and the dataset gives up; a moved element stays in it. */
  function Taken(store: map<Key, Obj>, k: Key, w: Wish): multiset<Elem>
    requires k in store
  {
    match store[k]
    case List(items) =>
      var n := PopCount(w.count, |items|);
      if w.target.Some? then multiset{} else Copies(if w.wherefrom.Head? then items[..n] else items[|items| - n..])
    case Zset(members) =>
      var n := PopCount(w.count, |members|);
      Copies(if w.wherefrom.Head? then members[..n] else members[|members| - n..])
    case _ => multiset{}
  }

  ghost function TakenBy(cs: map<nat, Client>, store: map<Key, Obj>, log: seq<Service>): multiset<Elem> {
    if |log| == 0 then multiset{}
    else
      var before, s := After(cs, store, log[..|log| - 1]), log[|log| - 1];
      TakenBy(cs, store, log[..|log| - 1])
      + if s.client in cs && s.key in before && StoredWell(before) then Taken(before, s.key, cs[s.client].wish) else multiset{}
  }

  lemma {:induction false} CopiesConcat(a: seq<string>, b: seq<string>)
    ensures Copies(a + b) == Copies(a) + Copies(b)
    decreases |b|
  {
    hide Copies;
    if |b| == 0 {
      assert a + b == a;
      NoCopies(b);
    } else {
      var front, last := b[..|b| - 1], multiset{Item(b[|b| - 1])};
      CopiesConcat(a, front);
      CopiesLast(b);
      CopiesLast(a + b);
      assert (a + b)[..|a + b| - 1] == a + front && (a + b)[|a + b| - 1] == b[|b| - 1];
      SumsAssoc(Copies(a), Copies(front), last);
    }
  }

  lemma SumsAssoc(a: multiset<Elem>, b: multiset<Elem>, c: multiset<Elem>)
    ensures a + b + c == a + (b + c)
  {
  }

  lemma NoCopies(s: seq<string>)
    requires s == []
    ensures Copies(s) == multiset{}
  {
  }

  lemma CopiesLast(s: seq<string>)
    requires s != []
    ensures Copies(s) == Copies(s[..|s| - 1]) + multiset{Item(s[|s| - 1])}
  {
  }

  /** Any key may be counted first. */
  lemma {:induction false} CountFirst(store: map<Key, Obj>, k: Key)
    requires k in store
    ensures Elements(store) == Contents(store[k]) + Elements(store - {k})
    decreases |store|
  {
    hide Contents;
    var j :| j in store && Elements(store) == Contents(store[j]) + Elements(store - {j});
    if j != k {
      CountFirst(store - {j}, k);
      CountFirst(store - {k}, j);
      assert store - {j} - {k} == store - {k} - {j};
    }
  }

  lemma CountOne(store: map<Key, Obj>, k: Key, o: Obj)
    ensures Elements(store[k := o]) == Contents(o) + Elements(store - {k})
  {
    hide Contents, Elements;
    CountFirst(store[k := o], k);
    assert store[k := o] - {k} == store - {k};
  }

  lemma StoredListCounts(store: map<Key, Obj>, k: Key, items: seq<string>)
    ensures Elements(StoreList(store, k, items)) == Copies(items) + Elements(store - {k})
  {
    hide Elements;
    CountOne(store, k, List(items));
  }

  lemma Popped(items: seq<string>, side: Side, n: nat)
    requires n <= |items|
    ensures Copies(items) == Copies(if side.Head? then items[..n] else items[|items| - n..]) + Copies(Rest(items, side, n))
  {
    hide Copies;
    var m := if side.Head? then n else |items| - n;
    assert items == items[..m] + items[m..];
    CopiesConcat(items[..m], items[m..]);
  }

  lemma OneCopy(v: string)
    ensures Copies([v]) == multiset{Item(v)}
  {
    assert [v][..0] == [];
  }

  lemma Pushed(items: seq<string>, v: string, side: Side)
    ensures Copies(Push(items, v, side)) == multiset{Item(v)} + Copies(items)
  {
    hide Copies;
    OneCopy(v);
    CopiesConcat([v], items);
    CopiesConcat(items, [v]);
  }

  lemma EndOf(items: seq<string>, side: Side)
    requires items != []
    ensures var v := if side.Head? then items[0] else items[|items| - 1];
      Copies(items) == multiset{Item(v)} + Copies(Rest(items, side, 1))
  {
    hide Copies;
    Popped(items, side, 1);
    OneCopy(if side.Head? then items[0] else items[|items| - 1]);
    assert items[..1] == [items[0]] && items[|items| - 1..] == [items[|items| - 1]];
  }

  lemma MoveConserves(store: map<Key, Obj>, k: Key, w: Wish)
    requires k in store && store[k].List? && store[k].items != [] && w.target.Some?
    ensures Elements(ServedList(store, k, w)) == Elements(store)
  {
    hide Elements, Copies;
    var items, d := store[k].items, w.target.value;
    CountFirst(store, k);
    EndOf(items, w.wherefrom);
    var v, rest := if w.wherefrom.Head? then items[0] else items[|items| - 1], Rest(items, w.wherefrom, 1);
    if d == k {
      CountOne(store, k, List(Push(rest, v, w.whereto)));
      Pushed(rest, v, w.whereto);
    } else if d !in store || store[d].List? {
      MovedApart(store, k, d, rest, v, w.whereto);
    }
  }

  lemma MovedApart(store: map<Key, Obj>, k: Key, d: Key, rest: seq<string>, v: string, side: Side)
    requires k in store && d != k && (d in store ==> store[d].List?)
    ensures var held := if d in store then store[d].items else [];
      Elements(StoreList(store[d := List(Push(held, v, side))], k, rest)) == multiset{Item(v)} + Copies(rest) + Elements(store - {k})
  {
    hide Elements, Copies, Push;
    var held := if d in store then store[d].items else [];
    var moved := List(Push(held, v, side));
    StoredListCounts(store[d := moved], k, rest);
    var others := store - {k};
    assert store[d := moved] - {k} == others[d := moved];
    CountOne(others, d, moved);
    Pushed(held, v, side);
    HeldCounts(others, d, held);
  }

  lemma HeldCounts(store: map<Key, Obj>, d: Key, held: seq<string>)
    requires if d in store then store[d] == List(held) else held == []
    ensures Elements(store) == Copies(held) + Elements(store - {d})
  {
    hide Elements;
    if d in store { CountFirst(store, d); } else { assert store - {d} == store; }
  }

  /** One service: what the dataset held it still holds, but for what the client took. */
  lemma ServedConserves(store: map<Key, Obj>, k: Key, w: Wish)
    requires StoredWell(store) && k in store
    ensures Elements(store) == Elements(Served(store, k, w)) + Taken(store, k, w)
  {
    hide Elements, Copies;
    CountFirst(store, k);
    match store[k] {
      case List(items) =>
        if w.target.Some? {
          MoveConserves(store, k, w);
        } else {
          var n := PopCount(w.count, |items|);
          Popped(items, w.wherefrom, n);
          StoredListCounts(store, k, Rest(items, w.wherefrom, n));
        }
      case Zset(members) =>
        var n := PopCount(w.count, |members|);
        var left := Rest(members, w.wherefrom, n);
        Popped(members, w.wherefrom, n);
        CountOne(store, k, Zset(left));
        if left == [] { NoCopies(left); }
      case _ =>
    }
  }

  /** So over any services: no element is lost and none appears. */
  lemma {:induction false} ServicesConserve(cs: map<nat, Client>, store: map<Key, Obj>, log: seq<Service>)
    ensures Elements(store) == Elements(After(cs, store, log)) + TakenBy(cs, store, log)
  {
    hide Elements, Served, Taken, StoredWell;
    if |log| > 0 {
      ServicesConserve(cs, store, log[..|log| - 1]);
      var before, s := After(cs, store, log[..|log| - 1]), log[|log| - 1];
      if s.client in cs && s.key in before && StoredWell(before) { ServedConserves(before, s.key, cs[s.client].wish); }
    }
  }

  // ------------------------------------------------------------------ the server

  class Server {
    var clients: map<nat, Client>
    var blockingKeys: map<Key, seq<Node>>
    var nextNode: nat
    var blockedClients: nat
    var blockedByType: map<BType, nat>
    var unblockedClients: seq<nat>
    var postponedClients: seq<Node>
    var readyKeys: seq<Key>
    var readySet: set<Key>
    var store: map<Key, Obj>

    ghost function Books(): Book
      reads this
    {
      Book(clients, blockingKeys, postponedClients, nextNode, blockedClients, blockedByType, unblockedClients)
    }

    ghost predicate Valid()
      reads this
    {
      Sound(Books()) && FlagsAgree(clients) && StoredWell(store)
    }

    constructor ()
      ensures Valid() && clients == map[] && readyKeys == [] && readySet == {} && store == map[]
    {
      clients, blockingKeys, nextNode := map[], map[], 0;
      blockedClients := 0;
      blockedByType := map[NotBlocked := 0, OnList := 0, OnZset := 0, OnStream := 0, Postponed := 0, OnShutdown := 0];
      unblockedClients, postponedClients := [], [];
      readyKeys, readySet, store := [], {}, map[];
      new;
      assert forall b :: OfType(clients, b) == {};
      forall b ensures b in blockedByType { EveryType(b); }
    }

    /** `queueClientForReprocessing` */
    method QueueClientForReprocessing(c: nat)
      requires c in clients && Queued(clients, unblockedClients)
      modifies this`clients, this`unblockedClients
      ensures clients == old(clients)[c := old(clients)[c].(queued := true)]
      ensures unblockedClients == if old(clients)[c].queued then old(unblockedClients) else old(unblockedClients) + [c]
      ensures Queued(clients, unblockedClients)
    {
      EnqueueKeeps(clients, unblockedClients, c, clients[c].(queued := true));
      if !clients[c].queued {
        clients := clients[c := clients[c].(queued := true)];
        unblockedClients := unblockedClients + [c];
      }
    }

    /** `blockClient` for the types that wait on no key. */
    method BlockClient(c: nat, btype: BType)
      requires Valid() && c in clients && !clients[c].blocked
      requires btype == Postponed || btype == OnShutdown
      modifies this`clients, this`nextNode, this`postponedClients, this`blockedClients, this`blockedByType
      ensures Valid()
      ensures clients == old(clients)[c := old(clients)[c].(blocked := true, btype := btype,
                postponedNode := if btype == Postponed then Some(old(nextNode)) else None)]
      ensures postponedClients == old(postponedClients) + if btype == Postponed then [Node(old(nextNode), c)] else []
      ensures blockedClients == old(blockedClients) + 1
    {
      hide Sound, FlagsAgree, StoredWell;
      ghost var cs0 := clients;
      var cl := clients[c];
      CoherentIn(clients, c);
      if btype == Postponed {
        SoundPostpone(Books(), c);
        postponedClients := postponedClients + [Node(nextNode, c)];
        cl := cl.(postponedNode := Some(nextNode));
        clients := clients[c := cl];
        nextNode := nextNode + 1;
      }
      SoundBlock(Books(), c, btype);
      cl := cl.(blocked := true, btype := btype);
      FlagsUpdate(cs0, c, cl);
      clients := clients[c := cl];
      blockedClients := blockedClients + 1;
      blockedByType := blockedByType[btype := blockedByType[btype] + 1];
      assert clients == cs0[c := cl];
    }

    /** `blockForKeys` */
    method BlockForKeys(c: nat, btype: BType, keys: seq<Key>, wish: Wish)
      requires Valid() && c in clients && !clients[c].blocked && OnKeys(btype) && keys != []
      modifies this`clients, this`nextNode, this`blockingKeys, this`blockedClients, this`blockedByType
      ensures Valid()
      ensures c in clients
      ensures clients == old(clients)[c := old(clients)[c].(blocked := true, btype := btype, wish := wish, keys := clients[c].keys)]
      ensures forall k :: k in clients[c].keys <==> k in keys
      ensures ListsJoined(old(blockingKeys), blockingKeys, clients[c].keys, c)
      ensures blockedClients == old(blockedClients) + 1
    {
      hide Sound, FlagsAgree, StoredWell, Coherent, ListsJoined;
      ghost var cs0 := clients;
      CoherentIn(clients, c);
      IdleIs(clients[c]);
      var cl := clients[c].(wish := wish);
      SoundSame(Books(), c, cl);
      clients := clients[c := cl];
      JoinKeys(c, keys);
      cl := clients[c];
      SoundBlock(Books(), c, btype);
      cl := cl.(blocked := true, btype := btype);
      assert keys[0] in cl.keys;
      WaitsForKeys(cl);
      FlagsUpdate(cs0, c, cl);
      blockedClients := blockedClients + 1;
      blockedByType := blockedByType[btype := blockedByType[btype] + 1];
      clients := clients[c := cl];
      assert clients == cs0[c := cl];
    }

    /** The loop of `blockForKeys`. */
    method JoinKeys(c: nat, keys: seq<Key>)
      requires Sound(Books()) && c in clients && clients[c].keys == map[]
      modifies this`clients, this`nextNode, this`blockingKeys
      ensures Sound(Books()) && c in clients
      ensures clients == old(clients)[c := old(clients)[c].(keys := clients[c].keys)]
      ensures forall k :: k in clients[c].keys <==> k in keys
      ensures ListsJoined(old(blockingKeys), blockingKeys, clients[c].keys, c)
    {
      hide Sound, ListsJoined, ListAt;
      ghost var cs0, bk0 := clients, blockingKeys;
      var cl := clients[c];
      NoneJoined(bk0, c);
      for j := 0 to |keys|
        invariant clients == cs0[c := cl] && cl == cs0[c].(keys := cl.keys)
        invariant Sound(Books())
        invariant forall k :: k in cl.keys <==> k in keys[..j]
        invariant ListsJoined(bk0, blockingKeys, cl.keys, c)
      {
        var k := keys[j];
        assert keys[..j + 1] == keys[..j] + [k];
        if k in cl.keys { continue; }
        SoundJoin(Books(), c, k);
        OneJoins(bk0, blockingKeys, cl.keys, c, k, nextNode);
        blockingKeys := blockingKeys[k := ListAt(blockingKeys, k) + [Node(nextNode, c)]];
        cl := cl.(keys := cl.keys[k := nextNode]);
        clients := clients[c := cl];
        nextNode := nextNode + 1;
      }
      assert keys[..|keys|] == keys;
    }

    /** `unblockClientWaitingData`, list part: the keys come out of the dictionary in any order. */
    method UnblockClientWaitingData(c: nat)
      requires Sound(Books()) && c in clients
      modifies this`blockingKeys
      ensures blockingKeys == DropClient(old(blockingKeys), c)
    {
      hide Sound, DelNode, Without;
      ghost var bk0 := blockingKeys;
      var keys := clients[c].keys;
      var rest := keys.Keys;
      DropEach(Books(), c);
      while rest != {}
        invariant rest <= keys.Keys
        invariant forall k :: ListAt(blockingKeys, k) == if k in rest then ListAt(bk0, k) else Without(ListAt(bk0, k), c)
        invariant forall k | k in blockingKeys :: k in bk0 && blockingKeys[k] != []
      {
        var k :| k in rest;
        var l := DelNode(ListAt(blockingKeys, k), keys[k]);
        blockingKeys := if |l| == 0 then blockingKeys - {k} else blockingKeys[k := l];
        rest := rest - {k};
      }
      DroppedIs(bk0, blockingKeys, c);
    }

    /** `unblockClient` */
    method UnblockClient(c: nat)
      requires Valid() && c in clients && clients[c].blocked
      modifies this`clients, this`blockingKeys, this`postponedClients, this`blockedClients, this`blockedByType, this`unblockedClients
      ensures Valid()
      ensures blockedClients == old(blockedClients) - 1
      ensures clients == old(clients)[c := Idle(old(clients)[c])]
      ensures blockingKeys == DropClient(old(blockingKeys), c)
      ensures unblockedClients == if old(clients)[c].queued then old(unblockedClients) else old(unblockedClients) + [c]
    {
      hide Sound, FlagsAgree, StoredWell, DropClient, DelNode;
      CoherentIn(clients, c);
      SoundUnblock(Books(), c);
      NobodyToDrop(Books(), c);
      FlagsUpdate(clients, c, Idle(clients[c]));
      var btype := clients[c].btype;
      if OnKeys(btype) {
        UnblockClientWaitingData(c);
      } else if btype == Postponed {
        postponedClients := DelNode(postponedClients, clients[c].postponedNode.value);
      }
      var cl := clients[c];
      cl := cl.(keys := map[], wish := if OnKeys(btype) then NO_WISH else cl.wish, postponedNode := None);
      blockedClients := blockedClients - 1;
      blockedByType := blockedByType[btype := blockedByType[btype] - 1];
      cl := cl.(blocked := false, btype := NotBlocked);
      if !cl.queued {
        unblockedClients := unblockedClients + [c];
      }
      clients := clients[c := cl.(queued := true)];
    }

    /** One turn of `processUnblockedClients`: the first client leaves the queue; whether its input
        is processed now depends on its being blocked again. */
    method TakeUnblockedClient() returns (c: nat, process: bool)
      requires Valid() && unblockedClients != []
      modifies this`clients, this`unblockedClients
      ensures Valid() && c == old(unblockedClients)[0] && c in old(clients)
      ensures unblockedClients == old(unblockedClients)[1..]
      ensures clients == old(clients)[c := old(clients)[c].(queued := false)] && process == !clients[c].blocked
    {
      hide Sound, FlagsAgree, StoredWell;
      c := unblockedClients[0];
      SoundDequeue(Books());
      CoherentIn(clients, c);
      FlagsUpdate(clients, c, clients[c].(queued := false));
      unblockedClients := unblockedClients[1..];
      clients := clients[c := clients[c].(queued := false)];
      process := !clients[c].blocked;
    }

    // ---------------------------------------------------------------- ready keys

    /** The queue and the per-database dictionaries hold the same keys, each once, `l` being the part of
        the queue already taken over by the service loop. */
    ghost predicate ReadyAgree(l: seq<Key>)
      reads this`readyKeys, this`readySet
    {
      && NoRepeats(l + readyKeys)
      && (forall k :: k in readySet <==> k in l || k in readyKeys)
    }

    /** `signalKeyAsReady` for a key whose value serves clients of type `btype`. */
    method SignalKeyAsReady(k: Key, btype: BType, ghost l: seq<Key>)
      requires (forall b :: b in blockedByType) && ReadyAgree(l)
      modifies this`readyKeys, this`readySet
      ensures var queue := btype != NotBlocked && blockedByType[btype] != 0 && k in blockingKeys && k !in old(readySet);
        && readyKeys == old(readyKeys) + (if queue then [k] else [])
        && readySet == old(readySet) + (if queue then {k} else {})
      ensures ReadyAgree(l)
    {
      if btype == NotBlocked { return; }
      if blockedByType[btype] == 0 { return; }
      if k !in blockingKeys { return; }
      if k in readySet { return; }
      assert l + (readyKeys + [k]) == (l + readyKeys) + [k];
      readyKeys := readyKeys + [k];
      readySet := readySet + {k};
    }

    /** Serving one client: `serveClientBlockedOnList`, or the pop of a sorted set. The dataset changes as
        `Served` says, and a list created by a BLMOVE is signalled. */
    method ServeClient(c: nat, k: Key, ghost l: seq<Key>) returns (deleted: bool)
      requires Valid() && c in clients && k in store && Fits(clients[c].btype, store[k])
      requires ReadyAgree(l) && NoneLost(clients, store, readySet, {k})
      modifies this`store, this`readyKeys, this`readySet
      ensures Valid() && store == Served(old(store), k, clients[c].wish)
      ensures deleted <==> k !in store
      ensures k in store ==> SameKind(store[k], old(store)[k])
      ensures ReadyAgree(l) && NoneLost(clients, store, readySet, {k})
    {
      hide Sound, FlagsAgree, StoredWell, NoneLost, NoRepeats, Push, StoreList;
      SoundTypes(Books());
      ghost var before := store;
      var w := clients[c].wish;
      ServedFrame(store, k, w);
      NonEmpty(store, k);
      match store[k] {
        case List(items) =>
          match w.target {
            case None =>
              store := StoreList(store, k, Rest(items, w.wherefrom, PopCount(w.count, |items|)));
            case Some(d) =>
              if d !in store || store[d].List? {
                var v := if w.wherefrom.Head? then items[0] else items[|items| - 1];
                var rest := Rest(items, w.wherefrom, 1);
                if d == k {
                  store := store[k := List(Push(rest, v, w.whereto))];
                } else {
                  if d !in store {
                    DbAddSignals(Books(), c, d);
                    SignalKeyAsReady(d, OnList, l);
                  }
                  store := store[d := List(Push(if d in store then store[d].items else [], v, w.whereto))];
                  store := StoreList(store, k, rest);
                }
              }
          }
        case Zset(members) =>
          var left := Rest(members, w.wherefrom, PopCount(w.count, |members|));
          store := if left == [] then store - {k} else store[k := Zset(left)];
      }
      deleted := k !in store;
      StillNoneLost(clients, before, store, old(readySet), readySet, k, w);
    }

    /** The body of the service loop: a client is served and unblocked, after those of `log`. */
    method ServeNext(c: nat, k: Key, ghost l: seq<Key>, ghost cs0: map<nat, Client>, ghost store0: map<Key, Obj>, ghost log: seq<Service>)
      returns (deleted: bool)
      requires Valid() && c in clients && k in clients[c].keys && k in store && Fits(clients[c].btype, store[k])
      requires ReadyAgree(l) && NoneLost(clients, store, readySet, {k})
      requires Released(cs0, clients, log, {}) && Due(cs0, log) && StaysUntil(cs0, store0, log, k) && store == After(cs0, store0, log)
      modifies this
      ensures Valid() && ReadyAgree(l) && NoneLost(clients, store, readySet, {k})
      ensures var log' := log + [Service(c, k)];
        && Released(cs0, clients, log', {}) && Due(cs0, log') && StaysUntil(cs0, store0, log', k) && store == After(cs0, store0, log')
      ensures clients == old(clients)[c := Idle(old(clients)[c])] && blockedClients == old(blockedClients) - 1
      ensures deleted <==> k !in store
      ensures k in store ==> SameKind(store[k], old(store)[k])
    {
      hide Sound, FlagsAgree, StoredWell, NoneLost, Served, Released, ReadyAgree, After, Due, StaysUntil;
      CoherentIn(clients, c);
      StaysLonger(cs0, store0, log, Service(c, k), k);
      deleted := ServeClient(c, k, l);
      UnblockClient(c);
      ServedNext(cs0, old(clients), clients, store0, log, c, k);
      ReleaseKeeps(old(clients), clients, c, store, readySet, {k});
    }

    /** `serveClientsBlockedOnListKey` and `serveClientsBlockedOnSortedSetKey`: the clients that fit are served
        in the order they blocked, each in turn, until the key is gone. */
    method ServeClientsBlockedOnKey(k: Key, btype: BType, ghost l: seq<Key>) returns (ghost log: seq<Service>)
      requires Valid() && k in store && Fits(btype, store[k])
      requires ReadyAgree(l) && NoneLost(clients, store, readySet, {k})
      modifies this
      ensures Valid() && ReadyAgree(l) && NoneLost(clients, store, readySet, {})
      ensures log <= Receivers(old(clients), k, ListAt(old(blockingKeys), k), btype)
      ensures k in store ==> log == Receivers(old(clients), k, ListAt(old(blockingKeys), k), btype)
      ensures StaysUntil(old(clients), old(store), log, k)
      ensures store == After(old(clients), old(store), log)
      ensures Released(old(clients), clients, log, {}) && Due(old(clients), log)
      ensures blockedClients <= old(blockedClients)
      ensures blockedClients == old(blockedClients) ==> readyKeys == old(readyKeys)
    {
      hide Sound, FlagsAgree, StoredWell, NoneLost, Served, Released, ReadyAgree, After, Receivers, Due, StaysUntil;
      SoundTypes(Books());
      ReleasedSelf(clients);
      ghost var cs0, store0 := clients, store;
      var todo := ListAt(blockingKeys, k);
      log := [];
      NothingYet(cs0, store0, k, todo, btype);
      if blockedByType[btype] == 0 || k !in blockingKeys {
        NobodyWaits(Books(), store, readySet, k, btype);
        NoReceivers(Books(), k, btype);
        return;
      }
      EachOnce(Books(), k);
      for i := 0 to |todo|
        invariant Valid() && k in store && Fits(btype, store[k])
        invariant ReadyAgree(l) && NoneLost(clients, store, readySet, {k})
        invariant log == Receivers(cs0, k, todo[..i], btype) && store == After(cs0, store0, log)
        invariant StaysUntil(cs0, store0, log, k)
        invariant Released(cs0, clients, log, {}) && Due(cs0, log)
        invariant forall p | i <= p < |todo| :: todo[p].client in clients && clients[todo[p].client] == cs0[todo[p].client]
        invariant forall p | 0 <= p < i :: todo[p].client in clients && clients[todo[p].client].btype != btype
        invariant blockedClients <= old(blockedClients)
        invariant blockedClients == old(blockedClients) ==> readyKeys == old(readyKeys)
      {
        var receiver := todo[i].client;
        NextReceiver(cs0, k, todo, btype, i);
        if clients[receiver].btype != btype { continue; }
        var deleted := ServeNext(receiver, k, l, cs0, store0, log);
        log := log + [Service(receiver, k)];
        if deleted {
          NotStored(clients, store, readySet, k);
          FirstReceivers(cs0, k, todo, btype, i + 1);
          return;
        }
      }
      assert todo[..|todo|] == todo;
      AllServed(cs0, clients, store, readySet, k, btype, todo, log);
    }

    /** `serveClientsBlockedOnStreamKey` and `unblockDeletedStreamReadgroupClients`: the stream clients of the
        key that are due are unblocked, and nobody else. */
    method ReleaseStreamClients(k: Key, due: set<nat>, ghost l: seq<Key>)
      requires Valid() && ReadyAgree(l) && NoneLost(clients, store, readySet, {})
      modifies this
      ensures Valid() && ReadyAgree(l) && NoneLost(clients, store, readySet, {})
      ensures Released(old(clients), clients, [], StreamClients(old(clients), k, due))
      ensures store == old(store) && readyKeys == old(readyKeys)
      ensures blockedClients <= old(blockedClients)
    {
      hide Sound, FlagsAgree, StoredWell, NoneLost, Released, ReadyAgree;
      SoundTypes(Books());
      ReleasedSelf(clients);
      if blockedByType[OnStream] == 0 || k !in blockingKeys {
        NoStreamClients(Books(), k, due);
        return;
      }
      ghost var cs0 := clients;
      var todo := blockingKeys[k];
      EachOnce(Books(), k);
      ghost var done := {};
      for i := 0 to |todo|
        invariant Valid() && ReadyAgree(l) && NoneLost(clients, store, readySet, {})
        invariant Released(cs0, clients, [], done)
        invariant done == StreamClients(cs0, k, due) * Among(todo[..i])
        invariant forall p | i <= p < |todo| :: todo[p].client in clients && clients[todo[p].client] == cs0[todo[p].client]
        invariant store == old(store) && readyKeys == old(readyKeys) && readySet == old(readySet)
        invariant blockedClients <= old(blockedClients)
      {
        var receiver := todo[i].client;
        AmongNext(todo, i);
        if clients[receiver].btype != OnStream || receiver !in due { continue; }
        CoherentIn(clients, receiver);
        ghost var cs1 := clients;
        UnblockClient(receiver);
        ReleaseKeeps(cs1, clients, receiver, store, readySet, {});
        ReleasedStream(cs0, cs1, clients, done, receiver);
        done := done + {receiver};
      }
      AmongAll(cs0, k, todo, due);
    }

    /** One ready key of `handleClientsBlockedOnKeys`. `due` names the stream clients that new entries
        reach at this visit. */
    method ServeReadyKey(k: Key, due: set<nat>, ghost l: seq<Key>) returns (ghost log: seq<Service>, ghost streams: set<nat>)
      requires Valid() && ReadyAgree(l) && NoneLost(clients, store, readySet, {k})
      modifies this
      ensures Valid() && ReadyAgree(l) && NoneLost(clients, store, readySet, {})
      ensures k in old(store) && old(store)[k].List? ==> var all := Receivers(old(clients), k, ListAt(old(blockingKeys), k), OnList);
        log <= all && (k in store ==> log == all)
      ensures k in old(store) && old(store)[k].Zset? ==> var all := Receivers(old(clients), k, ListAt(old(blockingKeys), k), OnZset);
        log <= all && (k in store ==> log == all)
      ensures k !in old(store) || !(old(store)[k].List? || old(store)[k].Zset?) ==> log == []
      ensures store == After(old(clients), old(store), log)
      ensures streams == StreamClients(old(clients), k, if k in old(store) && old(store)[k].Stream? then due else Groups(old(clients)))
      ensures forall c | c in old(clients) && old(clients)[c].btype == OnStream ::
        c in clients && (clients[c].blocked <==>
          !(k in old(clients)[c].keys && if k in old(store) && old(store)[k].Stream? then c in due else old(clients)[c].wish.group))
      ensures Released(old(clients), clients, log, streams) && Due(old(clients), log)
      ensures blockedClients <= old(blockedClients)
      ensures blockedClients == old(blockedClients) ==> readyKeys == old(readyKeys)
    {
      hide Sound, FlagsAgree, StoredWell, NoneLost, Released, ReadyAgree, After, Receivers, Due, Groups;
      ReleasedSelf(clients);
      log, streams := [], {};
      NothingYet(clients, store, k, [], OnList);
      if k in store && store[k].Stream? {
        NoFit(clients, store, readySet, k);
        ReleaseStreamClients(k, due, l);
        streams := StreamClients(old(clients), k, due);
        StreamsGo(old(clients), clients, log, streams, k, due);
        return;
      }
      if k in store {
        if store[k].List? {
          log := ServeClientsBlockedOnKey(k, OnList, l);
        } else if store[k].Zset? {
          log := ServeClientsBlockedOnKey(k, OnZset, l);
        } else {
          NoFit(clients, store, readySet, k);
        }
      } else {
        NotStored(clients, store, readySet, k);
      }
      ghost var cs1 := clients;
      var groups := set c | c in clients && clients[c].wish.group;
      ReleaseStreamClients(k, groups, l);
      streams := StreamClients(old(clients), k, Groups(old(clients)));
      SameGroups(old(clients), cs1, log, k);
      ReleasedTwice(old(clients), cs1, clients, log, [], {}, streams);
      assert log + [] == log && {} + streams == streams;
      StreamsGo(old(clients), clients, log, streams, k, Groups(old(clients)));
      GroupsAre(old(clients));
    }

    /** `handleClientsBlockedOnKeys`: it ends although served clients can make further keys ready, and when it
        ends nobody waits on a key that could serve them. The dataset is what serving the released clients one
        after the other leaves of it. */
    method HandleClientsBlockedOnKeys(due: nat -> set<nat>) returns (ghost log: seq<Service>, ghost streams: set<nat>)
      requires Valid() && ReadyAgree([]) && NoneLost(clients, store, readySet, {})
      modifies this
      ensures Valid() && readyKeys == [] && readySet == {}
      ensures forall c, k | c in clients && k in clients[c].keys && k in store ::
        !(clients[c].btype == OnList && store[k].List?) && !(clients[c].btype == OnZset && store[k].Zset?)
      ensures Released(old(clients), clients, log, streams) && Due(old(clients), log) && DueStreams(old(clients), streams, due)
      ensures store == After(old(clients), old(store), log)
      ensures Elements(old(store)) == Elements(store) + TakenBy(old(clients), old(store), log)
      ensures blockedClients <= old(blockedClients)
    {
      hide Sound, FlagsAgree, StoredWell, Waiting, Released, NoRepeats, After, Due, Receivers, StreamClients, Elements, TakenBy, DueStreams;
      ReleasedSelf(clients);
      log, streams := [], {};
      NothingYet(clients, store, Key(0, ""), [], OnList);
      NoStreams(clients, due);
      ghost var cs0, store0 := clients, store;
      var visit := 0;
      while |readyKeys| != 0
        invariant Valid() && ReadyAgree([]) && NoneLost(clients, store, readySet, {})
        invariant Released(cs0, clients, log, streams) && Due(cs0, log) && DueStreams(cs0, streams, due)
        invariant store == After(cs0, store0, log)
        invariant blockedClients <= old(blockedClients)
        decreases blockedClients, |readyKeys|
      {
        ghost var start := blockedClients;
        var l := readyKeys;
        assert [] + readyKeys == readyKeys && l + [] == l;
        readyKeys := [];
        while |l| != 0
          invariant Valid() && ReadyAgree(l) && NoneLost(clients, store, readySet, {})
          invariant Released(cs0, clients, log, streams) && Due(cs0, log) && DueStreams(cs0, streams, due)
          invariant store == After(cs0, store0, log)
          invariant blockedClients <= start
          invariant blockedClients == start ==> readyKeys == []
        {
          var k := l[0];
          FirstLeaves(l, readyKeys, readySet);
          readySet := readySet - {k};
          ghost var cs1 := clients;
          ghost var more, others := ServeReadyKey(k, due(visit), l[1..]);
          GoesOn(cs0, cs1, store0, log, streams, more);
          ReleasedTwice(cs0, cs1, clients, log, more, streams, others);
          MoreStreams(cs0, cs1, log, streams, others, due, k, visit);
          log, streams := log + more, streams + others;
          l := l[1..];
          visit := visit + 1;
        }
        assert [] + readyKeys == readyKeys;
      }
      NobodyWaiting(clients, store, readySet);
      ServicesConserve(cs0, store0, log);
    }

    /** `createClient` */
    method CreateClient() returns (c: nat)
      requires Valid()
      modifies this`clients
      ensures Valid() && c !in old(clients)
      ensures clients == old(clients)[c := Client(false, false, NotBlocked, map[], NO_WISH, None)]
      ensures NoneLost(old(clients), store, readySet, {}) ==> NoneLost(clients, store, readySet, {})
    {
      hide Sound, FlagsAgree, StoredWell;
      c := Unused(clients);
      SoundAdd(Books(), c, IDLE);
      FlagsUpdate(clients, c, IDLE);
      clients := clients[c := IDLE];
      NewcomerOwesNothing(old(clients), store, readySet, c);
    }

    /** `freeClient`: a blocked client is unblocked first, and then leaves the queue of unblocked clients. */
    method FreeClient(c: nat)
      requires Valid() && c in clients
      modifies this`clients, this`blockingKeys, this`postponedClients, this`blockedClients, this`blockedByType, this`unblockedClients
      ensures Valid() && clients == old(clients) - {c}
      ensures blockingKeys == DropClient(old(blockingKeys), c)
      ensures forall d :: d in unblockedClients <==> d in old(unblockedClients) && d != c
      ensures NoneLost(old(clients), store, readySet, {}) ==> NoneLost(clients, store, readySet, {})
    {
      hide Sound, FlagsAgree, StoredWell, DropClient;
      NobodyToDrop(Books(), c);
      CoherentIn(clients, c);
      if clients[c].blocked {
        UnblockClient(c);
      }
      CoherentIn(clients, c);
      SoundLeave(Books(), c);
      FlagsLess(clients, c);
      if clients[c].queued {
        unblockedClients := Unqueued(unblockedClients, c);
      }
      clients := clients - {c};
      LeavingOwesNothing(old(clients), store, readySet, c);
    }

    /** `dbAdd`: a command creates a key. Between commands every key that could serve a waiting client is
        queued, and stays so. */
    method DbAdd(k: Key, o: Obj)
      requires Valid() && ReadyAgree([]) && NoneLost(clients, store, readySet, {})
      requires k !in store && StoredWell(map[k := o])
      modifies this`store, this`readyKeys, this`readySet
      ensures Valid() && ReadyAgree([]) && NoneLost(clients, store, readySet, {})
      ensures store == old(store)[k := o]
      ensures var b := if o.List? then OnList else if o.Zset? then OnZset else if o.Stream? then OnStream else NotBlocked;
        readySet == old(readySet) + if b != NotBlocked && blockedByType[b] != 0 && k in blockingKeys then {k} else {}
      ensures o.Stream? && (exists c | c in clients :: clients[c].btype == OnStream && k in clients[c].keys) ==> k in readySet
    {
      hide Sound, FlagsAgree, NoneLost, NoRepeats;
      SoundTypes(Books());
      AddedIsQueued(Books(), store, readySet, k, o);
      StreamWaits(Books(), k);
      SignalKeyAsReady(k, BTypeOf(o), []);
      assert map[k := o][k] == o;
      store := store[k := o];
    }

    /** `dbGenericDelete` */
    method DbDelete(k: Key)
      requires Valid() && ReadyAgree([]) && NoneLost(clients, store, readySet, {})
      modifies this`store, this`readyKeys, this`readySet
      ensures Valid() && ReadyAgree([]) && NoneLost(clients, store, readySet, {})
      ensures store == old(store) - {k}
      ensures k in old(store) && old(store)[k].Stream? && blockedByType[OnStream] != 0 && k in blockingKeys ==> k in readySet
    {
      hide Sound, FlagsAgree, NoneLost, NoRepeats;
      SoundTypes(Books());
      if k in store && store[k].Stream? { SignalKeyAsReady(k, OnStream, []); }
      ChangingOwesNothing(clients, store, store - {k}, old(readySet));
      MoreReady(clients, store - {k}, old(readySet), readySet);
      store := store - {k};
    }

    /** `dbOverwrite`: an existing key gets a new value, of whatever type. Clients are signalled only for the sake of
        a stream that goes, so a client that the new value could serve is left waiting unless the key is queued. */
    method DbOverwrite(k: Key, o: Obj)
      requires Valid() && ReadyAgree([]) && NoneLost(clients, store, readySet, {})
      requires k in store && StoredWell(map[k := o])
      modifies this`store, this`readyKeys, this`readySet
      ensures Valid() && ReadyAgree([]) && store == old(store)[k := o]
      ensures var signals := old(store)[k].Stream? && blockedByType[OnStream] != 0 && k in blockingKeys;
        && readySet == old(readySet) + (if signals then {k} else {})
        && (NoneLost(clients, store, readySet, {}) <==>
            k in old(readySet) || signals || !exists c | c in clients ::
              k in clients[c].keys && ((clients[c].btype == OnList && o.List?) || (clients[c].btype == OnZset && o.Zset?)))
    {
      hide Sound, FlagsAgree, NoneLost, NoRepeats;
      SoundTypes(Books());
      assert map[k := o][k] == o;
      ghost var before := store;
      if store[k].Stream? { SignalKeyAsReady(k, OnStream, []); }
      store := store[k := o];
      OverwrittenIff(clients, before, old(readySet), readySet, k, o);
    }
  }

  const IDLE := Client(false, false, NotBlocked, map[], NO_WISH, None)

  /** BLPOP k, SET k x, SORT src STORE k: when all is done the client still waits on a list that could serve it. */
  method SortIntoBlockedKey(k: Key, items: seq<string>) returns (s: Server)
    requires items != []
    ensures fresh(s) && s.Valid() && s.readyKeys == [] && s.readySet == {}
    ensures k in s.store && s.store[k] == List(items)
    ensures exists c | c in s.clients :: s.clients[c].blocked && s.clients[c].btype == OnList && k in s.clients[c].keys
  {
    hide Server.Valid, NoneLost;
    s := new Server();
    NobodyYet(s.store, s.readySet);
    var c := s.CreateClient();
    ghost var cs := s.clients;
    s.BlockForKeys(c, OnList, [k], NO_WISH);
    BlockingOwesNothing(cs, s.store, s.readySet, c, s.clients[c]);
    s.DbAdd(k, Other);
    s.DbOverwrite(k, List(items));
    assert k in [k] && k in s.clients[c].keys && s.clients[c].btype == OnList;
    SomeIn(s.readyKeys);
  }

  lemma GroupsAre(cs: map<nat, Client>)
    ensures forall c | c in cs :: c in Groups(cs) <==> cs[c].wish.group
  {
  }

  /** Of the stream clients exactly those of the key that are due are unblocked. */
  lemma StreamsGo(cs0: map<nat, Client>, cs: map<nat, Client>, log: seq<Service>, streams: set<nat>, k: Key, due: set<nat>)
    requires FlagsAgree(cs0) && Released(cs0, cs, log, streams) && Due(cs0, log) && streams == StreamClients(cs0, k, due)
    ensures forall c | c in cs0 && cs0[c].btype == OnStream :: c in cs && (cs[c].blocked <==> !(k in cs0[c].keys && c in due))
  {
    forall c | c in cs0 && cs0[c].btype == OnStream ensures c in cs && (cs[c].blocked <==> !(k in cs0[c].keys && c in due)) {
      assert Coherent(cs0[c]) && !InLog(log, c);
    }
  }

  lemma NobodyWaiting(cs: map<nat, Client>, store: map<Key, Obj>, ready: set<Key>)
    requires NoneLost(cs, store, ready, {}) && ready == {}
    ensures forall c, k | c in cs && k in cs[c].keys && k in store ::
      !(cs[c].btype == OnList && store[k].List?) && !(cs[c].btype == OnZset && store[k].Zset?)
  {
    hide Waiting;
    forall c, k | c in cs && k in cs[c].keys && k in store
      ensures !(cs[c].btype == OnList && store[k].List?) && !(cs[c].btype == OnZset && store[k].Zset?)
    {
      WaitingIff(cs, store, k);
    }
  }

  /** BZPOPMIN k 0 or BLPOP k 0, then a key is created and the service loop follows: the client has been served. */
  method CreatedKeyServes(k: Key, btype: BType, w: Wish, o: Obj) returns (s: Server, c: nat)
    requires (btype == OnList && o.List?) || (btype == OnZset && o.Zset?)
    requires StoredWell(map[k := o])
    ensures fresh(s) && s.Valid() && s.readyKeys == [] && c in s.clients && !s.clients[c].blocked && s.clients[c].queued
    ensures s.store == Served(map[k := o], k, w)
    ensures forall x :: o == Zset([x]) ==> k !in s.store
  {
    hide Server.Valid, NoneLost, Released, After, Due, DueStreams, Elements, TakenBy, StoredWell, Served;
    s, c := OneBlocked(k, btype, w);
    s.DbAdd(k, o);
    ghost var cs0, store0 := s.clients, s.store;
    assert store0 == map[k := o] && store0[k] == o;
    ghost var log, streams := s.HandleClientsBlockedOnKeys(_ => {});
    NotWaiting(s.clients, s.store, k);
    OneWaits(cs0, s.clients, store0, log, streams, _ => {}, c, k);
    forall x ensures o == Zset([x]) ==> k !in s.store { LastMember(k, w, x); }
  }

  /** A new server with one client, which waits on one key. */
  method OneBlocked(k: Key, btype: BType, w: Wish) returns (s: Server, c: nat)
    requires OnKeys(btype)
    ensures fresh(s) && s.Valid() && s.ReadyAgree([]) && NoneLost(s.clients, s.store, s.readySet, {}) && s.store == map[]
    ensures s.clients.Keys == {c} && s.clients[c].keys.Keys == {k} && s.clients[c].btype == btype && s.clients[c].wish == w
  {
    hide Server.Valid, NoneLost;
    s := new Server();
    NobodyYet(s.store, s.readySet);
    c := s.CreateClient();
    ghost var cs := s.clients;
    s.BlockForKeys(c, btype, [k], w);
    BlockingOwesNothing(cs, s.store, s.readySet, c, s.clients[c]);
    assert k in [k];
  }

  lemma NotWaiting(cs: map<nat, Client>, store: map<Key, Obj>, k: Key)
    requires forall c, k | c in cs && k in cs[c].keys && k in store ::
      !(cs[c].btype == OnList && store[k].List?) && !(cs[c].btype == OnZset && store[k].Zset?)
    ensures !Waiting(cs, store, k)
  {
  }

  lemma LastMember(k: Key, w: Wish, x: string)
    ensures StoredWell(map[k := Zset([x])]) && k !in Served(map[k := Zset([x])], k, w)
  {
  }

  /** Of one client that waits on one key. */
  lemma OneWaits(cs0: map<nat, Client>, cs: map<nat, Client>, store0: map<Key, Obj>, log: seq<Service>, streams: set<nat>, due: nat -> set<nat>, c: nat, k: Key)
    requires cs0.Keys == {c} && cs0[c].keys.Keys == {k} && k in store0 && StoredWell(store0) && Fits(cs0[c].btype, store0[k])
    requires Released(cs0, cs, log, streams) && Due(cs0, log) && DueStreams(cs0, streams, due)
    requires !Waiting(cs, After(cs0, store0, log), k)
    ensures c in cs && cs[c] == Idle(cs0[c]) && After(cs0, store0, log) == Served(store0, k, cs0[c].wish)
  {
    hide Served, StoredWell, Released, Due, DueStreams, Waiting;
    NotReleased(cs0, cs, store0, streams, due, c, k);
    OnlyService(cs0, log, c, k);
    InLogOne(c, k);
    ReleasedOne(cs0, cs, log, streams, c);
  }

  /** A client blocked before a value that fits is not released unless it is served. */
  lemma NotReleased(cs0: map<nat, Client>, cs: map<nat, Client>, store: map<Key, Obj>, streams: set<nat>, due: nat -> set<nat>, c: nat, k: Key)
    requires c in cs0 && k in cs0[c].keys && k in store && Fits(cs0[c].btype, store[k]) && DueStreams(cs0, streams, due)
    ensures Released(cs0, cs, [], streams) ==> Waiting(cs, store, k)
    ensures After(cs0, store, []) == store
  {
    assert !InLog([], c) && c !in streams;
  }

  lemma ReleasedOne(cs0: map<nat, Client>, cs: map<nat, Client>, log: seq<Service>, streams: set<nat>, c: nat)
    requires Released(cs0, cs, log, streams) && c in cs0 && InLog(log, c)
    ensures c in cs && cs[c] == Idle(cs0[c])
  {
  }

  lemma OnlyService(cs: map<nat, Client>, log: seq<Service>, c: nat, k: Key)
    requires cs.Keys == {c} && cs[c].keys.Keys == {k} && Due(cs, log)
    ensures log == [] || log == [Service(c, k)]
  {
    forall i | 0 <= i < |log| ensures log[i] == Service(c, k) { assert log[i].client in cs.Keys && log[i].key in cs[c].keys.Keys; }
    TwoRepeat(log, c);
  }

  lemma TwoRepeat(log: seq<Service>, c: nat)
    requires forall i | 0 <= i < |log| :: log[i].client == c
    ensures |log| > 1 ==> !(forall i, j | 0 <= i < j < |log| :: log[i].client != log[j].client)
  {
    if |log| > 1 { assert log[0].client == log[1].client; }
  }

  lemma InLogOne(c: nat, k: Key)
    ensures InLog([Service(c, k)], c) && [Service(c, k)][..0] == []
  {
    assert [Service(c, k)][0].client == c;
  }

  lemma SomeIn(keys: seq<Key>)
    ensures keys == [] || exists k :: k in keys
  {
    if |keys| > 0 { assert keys[0] in keys; }
  }

  lemma NobodyYet(store: map<Key, Obj>, ready: set<Key>)
    ensures NoneLost(map[], store, ready, {})
  {
  }

  /** After an overwrite every waiting client is accounted for if and only if the key is queued or serves nobody. */
  lemma OverwrittenIff(cs: map<nat, Client>, before: map<Key, Obj>, ready0: set<Key>, ready: set<Key>, k: Key, o: Obj)
    requires NoneLost(cs, before, ready0, {}) && ready0 <= ready <= ready0 + {k}
    ensures NoneLost(cs, before[k := o], ready, {}) <==>
      k in ready || !exists c | c in cs :: k in cs[c].keys && ((cs[c].btype == OnList && o.List?) || (cs[c].btype == OnZset && o.Zset?))
  {
    var after := before[k := o];
    forall j | j != k && Waiting(cs, after, j) ensures j in ready { assert Waiting(cs, before, j); }
    assert Waiting(cs, after, k) <==> exists c | c in cs :: k in cs[c].keys && Fits(cs[c].btype, o);
  }

  lemma MoreReady(cs: map<nat, Client>, store: map<Key, Obj>, ready0: set<Key>, ready: set<Key>)
    requires NoneLost(cs, store, ready0, {}) && ready0 <= ready
    ensures NoneLost(cs, store, ready, {})
  {
  }

  lemma NewcomerOwesNothing(cs: map<nat, Client>, store: map<Key, Obj>, ready: set<Key>, c: nat)
    requires c !in cs
    ensures NoneLost(cs, store, ready, {}) ==> NoneLost(cs[c := IDLE], store, ready, {})
  {
    if NoneLost(cs, store, ready, {}) { BlockingOwesNothing(cs, store, ready, c, IDLE); }
  }

  lemma LeavingOwesNothing(cs: map<nat, Client>, store: map<Key, Obj>, ready: set<Key>, c: nat)
    ensures NoneLost(cs, store, ready, {}) ==> NoneLost(cs - {c}, store, ready, {})
  {
    if NoneLost(cs, store, ready, {}) {
      forall k | Waiting(cs - {c}, store, k) ensures k in ready {
        var x :| x in cs - {c} && k in (cs - {c})[x].keys && Fits((cs - {c})[x].btype, store[k]);
        assert x in cs && (cs - {c})[x] == cs[x];
        assert Waiting(cs, store, k);
      }
    }
  }

  /** A number that no client has. */
  method Unused(cs: map<nat, Client>) returns (c: nat)
    ensures c !in cs
  {
    var rest := cs.Keys;
    c := 0;
    while rest != {}
      invariant rest <= cs.Keys && forall d | d in cs && d !in rest :: d < c
    {
      var d :| d in rest;
      rest := rest - {d};
      if c <= d { c := d + 1; }
    }
  }

  /** A client that is not known yet and waits for nothing. */
  lemma SoundAdd(b: Book, c: nat, cl: Client)
    requires Sound(b) && c !in b.cs && !cl.blocked && !cl.queued && cl.btype == NotBlocked && cl.keys == map[] && cl.postponedNode.None?
    ensures Sound(b.(cs := b.cs[c := cl]))
  {
    hide Indexed, NodesBelow, Counted;
    IndexOthers(b.cs, b.cs[c := cl], b.bk, c);
    CountOthers(b.cs, b.cs[c := cl], b.total, b.byType, c);
  }

  /** A client that waits for nothing does not matter to the index or to the counters. */
  lemma IndexOthers(cs: map<nat, Client>, cs': map<nat, Client>, bk: map<Key, seq<Node>>, c: nat)
    requires Indexed(cs, bk) && (c in cs ==> cs[c].keys == map[]) && (c in cs' ==> cs'[c].keys == map[])
    requires forall d | d != c :: (d in cs <==> d in cs') && (d in cs ==> cs[d] == cs'[d])
    ensures Indexed(cs', bk)
  {
    hide ListsGood;
    forall k, e | k in bk && e in bk[k] ensures Recorded(cs', k, e) { assert Recorded(cs, k, e); }
  }

  lemma CountOthers(cs: map<nat, Client>, cs': map<nat, Client>, total: nat, byType: map<BType, nat>, c: nat)
    requires Counted(cs, total, byType)
    requires (c in cs ==> !cs[c].blocked && cs[c].btype == NotBlocked) && (c in cs' ==> !cs'[c].blocked && cs'[c].btype == NotBlocked)
    requires forall d | d != c :: (d in cs <==> d in cs') && (d in cs ==> cs[d] == cs'[d])
    ensures Counted(cs', total, byType)
  {
    assert AllBlocked(cs') == AllBlocked(cs);
    forall t | t != NotBlocked ensures OfType(cs', t) == OfType(cs, t) { }
  }

  function Unqueued(q: seq<nat>, c: nat): seq<nat> {
    if |q| == 0 then [] else (if q[0] == c then [] else [q[0]]) + Unqueued(q[1..], c)
  }

  lemma {:induction false} UnqueuedIs(q: seq<nat>, c: nat)
    ensures forall d :: d in Unqueued(q, c) <==> d in q && d != c
    ensures NoRepeats(q) ==> NoRepeats(Unqueued(q, c))
    ensures c !in q ==> Unqueued(q, c) == q
  {
    if |q| > 0 {
      UnqueuedIs(q[1..], c);
      assert q == [q[0]] + q[1..];
      if NoRepeats(q) {
        assert q[0] !in q[1..] by { assert forall i | 0 <= i < |q[1..]| :: q[1..][i] == q[i + 1]; }
        HeadKeeps(q[0], Unqueued(q[1..], c));
      }
    }
  }

  lemma HeadKeeps(x: nat, q: seq<nat>)
    requires NoRepeats(q) && x !in q
    ensures NoRepeats([x] + q)
  {
  }

  /** A client that waits for nothing may go, with its place in the queue. */
  lemma SoundLeave(b: Book, c: nat)
    requires Sound(b) && c in b.cs && !b.cs[c].blocked && b.cs[c].btype == NotBlocked
    requires b.cs[c].keys == map[] && b.cs[c].postponedNode.None?
    ensures Sound(b.(cs := b.cs - {c}, queue := Unqueued(b.queue, c)))
    ensures !b.cs[c].queued ==> Unqueued(b.queue, c) == b.queue
    ensures forall d :: d in Unqueued(b.queue, c) <==> d in b.queue && d != c
  {
    hide Indexed, NodesBelow, Counted, NoRepeats;
    UnqueuedIs(b.queue, c);
    IndexOthers(b.cs, b.cs - {c}, b.bk, c);
    CountOthers(b.cs, b.cs - {c}, b.total, b.byType, c);
  }

  lemma FlagsLess(cs: map<nat, Client>, c: nat)
    requires FlagsAgree(cs)
    ensures FlagsAgree(cs - {c})
  {
  }

  // ------------------------------------------------------------------ the service log

  lemma NothingYet(cs: map<nat, Client>, store: map<Key, Obj>, k: Key, l: seq<Node>, b: BType)
    ensures After(cs, store, []) == store && Due(cs, []) && StaysUntil(cs, store, [], k) && Receivers(cs, k, l[..0], b) == []
    ensures [] <= Receivers(cs, k, l, b)
  {
  }

  lemma NextReceiver(cs: map<nat, Client>, k: Key, l: seq<Node>, b: BType, i: nat)
    requires i < |l|
    ensures var c := l[i].client;
      Receivers(cs, k, l[..i + 1], b) == Receivers(cs, k, l[..i], b) + if c in cs && cs[c].btype == b then [Service(c, k)] else []
  {
    assert l[..i + 1][..i] == l[..i];
  }

  /**
   First blocked, first served: if a later client of the key's list is among the first ones served, every earlier one
   that waits for the same type was served before it.
   */
  lemma FirstBlockedFirst(cs: map<nat, Client>, k: Key, l: seq<Node>, b: BType, log: seq<Service>, p: nat, q: nat, n: nat)
    requires p < q < |l| && l[p].client in cs && cs[l[p].client].btype == b
    requires log <= Receivers(cs, k, l, b) && n < |log| && log[n].client == l[q].client
    requires forall i, j | 0 <= i < j < |l| :: l[i].client != l[j].client
    ensures exists m | 0 <= m < n :: log[m] == Service(l[p].client, k)
  {
    hide Receivers;
    var i := ReceiverFrom(cs, k, l, b, n);
    assert i == q;
    var m := ReceiverOf(cs, k, l[..q], b, p);
    FirstReceivers(cs, k, l, b, q);
    assert log[m] == Receivers(cs, k, l[..q], b)[m];
  }

  lemma {:induction false} ReceiverFrom(cs: map<nat, Client>, k: Key, l: seq<Node>, b: BType, n: nat) returns (i: nat)
    requires n < |Receivers(cs, k, l, b)|
    ensures i < |l| && Receivers(cs, k, l, b)[n] == Service(l[i].client, k) && |Receivers(cs, k, l[..i], b)| == n
  {
    var front := l[..|l| - 1];
    if n < |Receivers(cs, k, front, b)| {
      i := ReceiverFrom(cs, k, front, b, n);
      assert front[..i] == l[..i];
    } else {
      i := |l| - 1;
    }
  }

  lemma {:induction false} ReceiverOf(cs: map<nat, Client>, k: Key, l: seq<Node>, b: BType, p: nat) returns (m: nat)
    requires p < |l| && l[p].client in cs && cs[l[p].client].btype == b
    ensures m < |Receivers(cs, k, l, b)| && Receivers(cs, k, l, b)[m] == Service(l[p].client, k)
  {
    if p < |l| - 1 { m := ReceiverOf(cs, k, l[..|l| - 1], b, p); } else { m := |Receivers(cs, k, l, b)| - 1; }
  }

  lemma {:induction false} FirstReceivers(cs: map<nat, Client>, k: Key, l: seq<Node>, b: BType, i: nat)
    requires i <= |l|
    ensures Receivers(cs, k, l[..i], b) <= Receivers(cs, k, l, b)
    decreases |l| - i
  {
    hide Receivers;
    if i < |l| {
      NextReceiver(cs, k, l, b, i);
      FirstReceivers(cs, k, l, b, i + 1);
    } else {
      assert l[..i] == l;
    }
  }

  lemma {:induction false} NoneOf(cs: map<nat, Client>, k: Key, l: seq<Node>, b: BType)
    requires forall p | 0 <= p < |l| :: l[p].client in cs ==> cs[l[p].client].btype != b
    ensures Receivers(cs, k, l, b) == []
  {
    if |l| > 0 { NoneOf(cs, k, l[..|l| - 1], b); }
  }

  lemma NoReceivers(b: Book, k: Key, btype: BType)
    requires Sound(b) && btype in b.byType && btype != NotBlocked && (b.byType[btype] == 0 || k !in b.bk)
    ensures Receivers(b.cs, k, ListAt(b.bk, k), btype) == []
  {
    forall c | c in b.cs && b.byType[btype] == 0 ensures b.cs[c].btype != btype { assert c !in OfType(b.cs, btype); }
    NoneOf(b.cs, k, ListAt(b.bk, k), btype);
  }

  lemma NoStreamClients(b: Book, k: Key, due: set<nat>)
    requires Sound(b) && OnStream in b.byType && (b.byType[OnStream] == 0 || k !in b.bk)
    ensures StreamClients(b.cs, k, due) == {}
  {
    forall c | c in b.cs && k in b.cs[c].keys ensures b.cs[c].btype != OnStream {
      assert c in OfType(b.cs, OnStream) <==> b.cs[c].btype == OnStream;
    }
  }

  /** One more client served and unblocked. */
  lemma ServedNext(cs0: map<nat, Client>, cs1: map<nat, Client>, cs: map<nat, Client>, store0: map<Key, Obj>, log: seq<Service>, c: nat, k: Key)
    requires Released(cs0, cs1, log, {}) && Due(cs0, log) && c in cs1 && k in cs1[c].keys && !cs1[c].btype.OnStream?
    requires cs == cs1[c := Idle(cs1[c])]
    ensures var log' := log + [Service(c, k)];
      && Released(cs0, cs, log', {}) && Due(cs0, log')
      && After(cs0, store0, log') == AfterOne(cs1, After(cs0, store0, log), Service(c, k))
      && log'[..|log|] == log
  {
    hide After, AfterOne, InLog;
    var one := [Service(c, k)];
    OnlyOne(c, k);
    assert Released(cs1, cs, one, {});
    GoesOn(cs0, cs1, store0, log, {}, one);
    ReleasedTwice(cs0, cs1, cs, log, one, {}, {});
    AfterJustOne(cs1, After(cs0, store0, log), Service(c, k));
  }

  lemma OnlyOne(c: nat, k: Key)
    ensures forall d :: InLog([Service(c, k)], d) <==> d == c
  {
    assert [Service(c, k)][0].client == c;
  }

  lemma AfterJustOne(cs: map<nat, Client>, store: map<Key, Obj>, s: Service)
    ensures After(cs, store, [s]) == AfterOne(cs, store, s)
  {
    hide AfterOne;
    assert [s][..0] == [];
  }

  lemma ReleasedStream(cs0: map<nat, Client>, cs1: map<nat, Client>, cs: map<nat, Client>, done: set<nat>, c: nat)
    requires Released(cs0, cs1, [], done) && c in cs1 && cs == cs1[c := Idle(cs1[c])]
    ensures Released(cs0, cs, [], done + {c})
  {
  }

  /** Serving list and sorted set clients leaves the stream clients of a key as they are. */
  lemma SameGroups(cs0: map<nat, Client>, cs1: map<nat, Client>, log: seq<Service>, k: Key)
    requires Released(cs0, cs1, log, {}) && Due(cs0, log)
    ensures StreamClients(cs1, k, set c | c in cs1 && cs1[c].wish.group) == StreamClients(cs0, k, Groups(cs0))
  {
    forall c | c in cs0 && cs0[c].btype == OnStream ensures !InLog(log, c) { }
  }

  /** Every stream client that was unblocked was reached by new entries at some visit, or reads as part of a group. */
  ghost predicate DueStreams(cs: map<nat, Client>, streams: set<nat>, due: nat -> set<nat>) {
    forall c | c in streams :: c in cs && cs[c].btype == OnStream && (cs[c].wish.group || exists v :: c in due(v))
  }

  lemma NoStreams(cs: map<nat, Client>, due: nat -> set<nat>)
    ensures DueStreams(cs, {}, due)
  {
  }

  lemma MoreStreams(cs0: map<nat, Client>, cs1: map<nat, Client>, log: seq<Service>, streams: set<nat>, others: set<nat>,
                    due: nat -> set<nat>, k: Key, v: nat)
    requires Released(cs0, cs1, log, streams) && DueStreams(cs0, streams, due)
    requires others == StreamClients(cs1, k, due(v)) || others == StreamClients(cs1, k, Groups(cs1))
    ensures DueStreams(cs0, streams + others, due)
  {
    forall c | c in others ensures c in cs0 && cs0[c] == cs1[c] { }
  }

  /** `getBlockedTypeByType` */
  function BTypeOf(o: Obj): BType {
    match o
    case List(_) => OnList
    case Zset(_) => OnZset
    case Stream => OnStream
    case Other => NotBlocked
  }

  lemma StreamWaits(b: Book, k: Key)
    requires Sound(b)
    ensures OnStream in b.byType
    ensures (exists c | c in b.cs :: b.cs[c].btype == OnStream && k in b.cs[c].keys) ==> b.byType[OnStream] != 0 && k in b.bk
  {
    if c :| c in b.cs && b.cs[c].btype == OnStream && k in b.cs[c].keys { assert c in OfType(b.cs, OnStream); }
  }

  lemma AddedIsQueued(b: Book, store: map<Key, Obj>, ready: set<Key>, k: Key, o: Obj)
    requires Sound(b) && NoneLost(b.cs, store, ready, {}) && k !in store && BTypeOf(o) in b.byType
    ensures var queue := BTypeOf(o) != NotBlocked && b.byType[BTypeOf(o)] != 0 && k in b.bk && k !in ready;
      NoneLost(b.cs, store[k := o], ready + (if queue then {k} else {}), {})
  {
    forall j | Waiting(b.cs, store[k := o], j) ensures j == k || j in ready {
      if j != k { assert Waiting(b.cs, store, j); }
    }
    if Waiting(b.cs, store[k := o], k) {
      var c :| c in b.cs && k in b.cs[c].keys && Fits(b.cs[c].btype, o);
      assert c in OfType(b.cs, b.cs[c].btype);
    }
  }

  /** A client that blocks does so on keys that cannot serve it, so no wakeup is owed. */
  lemma BlockingOwesNothing(cs: map<nat, Client>, store: map<Key, Obj>, ready: set<Key>, c: nat, cl: Client)
    requires NoneLost(cs, store, ready, {}) && forall k | k in cl.keys && k in store :: !Fits(cl.btype, store[k])
    ensures NoneLost(cs[c := cl], store, ready, {})
  {
    forall k | Waiting(cs[c := cl], store, k) ensures k in ready {
      var x :| x in cs[c := cl] && k in cs[c := cl][x].keys && Fits(cs[c := cl][x].btype, store[k]);
      assert x != c;
      assert Waiting(cs, store, k);
    }
  }

  /** Changing a stored value without changing its kind, or deleting it, owes nothing either. */
  lemma ChangingOwesNothing(cs: map<nat, Client>, before: map<Key, Obj>, after: map<Key, Obj>, ready: set<Key>)
    requires NoneLost(cs, before, ready, {}) && forall k | k in after :: k in before && SameKind(before[k], after[k])
    ensures NoneLost(cs, after, ready, {})
  {
    forall k | Waiting(cs, after, k) ensures k in ready {
      assert Waiting(cs, before, k);
    }
  }

  lemma NoFit(cs: map<nat, Client>, store: map<Key, Obj>, ready: set<Key>, k: Key)
    requires NoneLost(cs, store, ready, {k}) && k in store && !store[k].List? && !store[k].Zset?
    ensures NoneLost(cs, store, ready, {})
  {
  }

  lemma FirstLeaves(l: seq<Key>, ready: seq<Key>, all: set<Key>)
    requires l != [] && NoRepeats(l + ready) && forall k :: k in all <==> k in l || k in ready
    ensures NoRepeats(l[1..] + ready) && forall k :: k in all - {l[0]} <==> k in l[1..] || k in ready
  {
    var both, rest := l + ready, l[1..] + ready;
    assert rest == both[1..];
    assert l[0] !in rest by {
      forall i | 0 <= i < |rest| ensures rest[i] != l[0] { assert both[i + 1] == rest[i] && both[0] == l[0]; }
    }
    assert forall k :: k in rest <==> k in l[1..] || k in ready;
    assert l == [l[0]] + l[1..];
    assert forall k :: k in l <==> k == l[0] || k in l[1..];
  }

  lemma ReleaseKeeps(cs1: map<nat, Client>, cs: map<nat, Client>, c: nat, store: map<Key, Obj>, ready: set<Key>, but: set<Key>)
    requires NoneLost(cs1, store, ready, but) && c in cs1 && cs == cs1[c := Idle(cs1[c])]
    ensures NoneLost(cs, store, ready, but)
  {
    forall k | k !in but && Waiting(cs, store, k) ensures k in ready {
      var x :| x in cs && k in cs[x].keys && Fits(cs[x].btype, store[k]);
      assert x in cs1 && cs1[x] == cs[x];
      assert Waiting(cs1, store, k);
    }
  }

  lemma NotStored(cs: map<nat, Client>, store: map<Key, Obj>, ready: set<Key>, k: Key)
    requires NoneLost(cs, store, ready, {k}) && k !in store
    ensures NoneLost(cs, store, ready, {})
  {
  }

  lemma NobodyWaits(b: Book, store: map<Key, Obj>, ready: set<Key>, k: Key, btype: BType)
    requires Sound(b) && k in store && Fits(btype, store[k]) && NoneLost(b.cs, store, ready, {k})
    requires btype in b.byType && (b.byType[btype] == 0 || k !in b.bk)
    ensures NoneLost(b.cs, store, ready, {})
  {
    forall c | c in b.cs && k in b.cs[c].keys ensures !Fits(b.cs[c].btype, store[k]) {
      assert k in b.bk;
      assert c in OfType(b.cs, b.cs[c].btype);
    }
  }

  lemma EachOnce(b: Book, k: Key)
    requires Sound(b) && k in b.bk
    ensures forall p | 0 <= p < |b.bk[k]| :: b.bk[k][p].client in b.cs && k in b.cs[b.bk[k][p].client].keys
    ensures forall p, q | 0 <= p < q < |b.bk[k]| :: b.bk[k][p].client != b.bk[k][q].client
    ensures forall c | c in b.cs && k in b.cs[c].keys :: exists p | 0 <= p < |b.bk[k]| :: b.bk[k][p].client == c
  {
    var list := b.bk[k];
    hide Counted, Queued, PostponedIndexed, NodesBelow;
    assert forall p | 0 <= p < |list| :: list[p] in list;
    forall c | c in b.cs && k in b.cs[c].keys ensures exists p | 0 <= p < |list| :: list[p].client == c {
      var p :| 0 <= p < |list| && list[p] == Node(b.cs[c].keys[k], c);
    }
  }

  lemma AllServed(cs0: map<nat, Client>, cs: map<nat, Client>, store: map<Key, Obj>, ready: set<Key>, k: Key, btype: BType, todo: seq<Node>,
                  log: seq<Service>)
    requires Released(cs0, cs, log, {}) && NoneLost(cs, store, ready, {k}) && k in store && Fits(btype, store[k])
    requires forall p | 0 <= p < |todo| :: todo[p].client in cs && cs[todo[p].client].btype != btype
    requires forall c | c in cs0 && k in cs0[c].keys :: exists p | 0 <= p < |todo| :: todo[p].client == c
    ensures NoneLost(cs, store, ready, {})
  {
    forall c | c in cs && k in cs[c].keys ensures !Fits(cs[c].btype, store[k]) {
      assert cs[c] == cs0[c];
      var p :| 0 <= p < |todo| && todo[p].client == c;
    }
  }

  lemma SoundTypes(b: Book)
    requires Sound(b)
    ensures forall t :: t in b.byType
  {
  }

  lemma NonEmpty(store: map<Key, Obj>, k: Key)
    requires StoredWell(store) && k in store
    ensures store[k].List? ==> store[k].items != []
  {
  }

  /** While the served client is still blocked the list counter is not zero, and a key somebody waits on has a list. */
  lemma DbAddSignals(b: Book, c: nat, d: Key)
    requires Sound(b) && c in b.cs && b.cs[c].btype == OnList
    ensures OnList in b.byType && b.byType[OnList] != 0
    ensures forall x | x in b.cs && d in b.cs[x].keys :: d in b.bk
  {
    assert c in OfType(b.cs, OnList);
  }

  lemma StillNoneLost(cs: map<nat, Client>, before: map<Key, Obj>, after: map<Key, Obj>, ready0: set<Key>, ready: set<Key>, k: Key, w: Wish)
    requires NoneLost(cs, before, ready0, {k}) && ready >= ready0
    requires StoredWell(before) && k in before && after == Served(before, k, w)
    requires forall j | j in after && j !in before && (exists x | x in cs :: j in cs[x].keys) :: j in ready
    ensures NoneLost(cs, after, ready, {k})
  {
    hide Served, StoredWell;
    ServedFrame(before, k, w);
    forall j | j != k && Waiting(cs, after, j) ensures j in ready {
      var x :| x in cs && j in cs[x].keys && Fits(cs[x].btype, after[j]);
      if j in before { assert Waiting(cs, before, j); }
    }
  }

  lemma CoherentIn(cs: map<nat, Client>, c: nat)
    requires FlagsAgree(cs) && c in cs
    ensures Coherent(cs[c])
  {
  }

  lemma IdleIs(cl: Client)
    requires Coherent(cl) && !cl.blocked
    ensures cl.btype == NotBlocked && cl.keys == map[] && cl.postponedNode.None?
  {
  }

  lemma WaitsForKeys(cl: Client)
    requires cl.blocked && OnKeys(cl.btype) && cl.keys != map[] && cl.postponedNode.None?
    ensures Coherent(cl)
  {
  }

  lemma FlagsUpdate(cs: map<nat, Client>, c: nat, cl: Client)
    requires FlagsAgree(cs) && Coherent(cl)
    ensures FlagsAgree(cs[c := cl])
  {
  }

  lemma DropEach(b: Book, c: nat)
    requires Sound(b) && c in b.cs
    ensures forall k | k in b.cs[c].keys :: k in b.bk && DelNode(ListAt(b.bk, k), b.cs[c].keys[k]) == Without(ListAt(b.bk, k), c)
    ensures forall k | k !in b.cs[c].keys :: Without(ListAt(b.bk, k), c) == ListAt(b.bk, k)
    ensures forall k | k in b.bk :: b.bk[k] != []
  {
    forall k
      ensures k in b.cs[c].keys ==> k in b.bk && DelNode(ListAt(b.bk, k), b.cs[c].keys[k]) == Without(ListAt(b.bk, k), c)
      ensures k !in b.cs[c].keys ==> Without(ListAt(b.bk, k), c) == ListAt(b.bk, k)
    {
      DropAt(b.cs, b.bk, c, k);
    }
  }

  lemma DroppedIs(bk: map<Key, seq<Node>>, after: map<Key, seq<Node>>, c: nat)
    requires forall k :: ListAt(after, k) == Without(ListAt(bk, k), c)
    requires forall k | k in after :: k in bk && after[k] != []
    ensures after == DropClient(bk, c)
  {
    forall k | k in bk ensures k in after <==> Without(bk[k], c) != [] {
      assert ListAt(after, k) == Without(bk[k], c);
    }
    forall k | k in after ensures after[k] == Without(bk[k], c) {
      assert ListAt(after, k) == after[k];
    }
  }

  lemma NobodyToDrop(b: Book, c: nat)
    requires Sound(b) && c in b.cs
    ensures b.cs[c].keys == map[] ==> DropClient(b.bk, c) == b.bk
  {
    if b.cs[c].keys == map[] {
      forall k | k in b.bk ensures Without(b.bk[k], c) == b.bk[k] && b.bk[k] != [] {
        DropAt(b.cs, b.bk, c, k);
      }
    }
  }

  lemma SoundDequeue(b: Book)
    requires Sound(b) && b.queue != []
    ensures b.queue[0] in b.cs
    ensures Sound(b.(queue := b.queue[1..], cs := b.cs[b.queue[0] := b.cs[b.queue[0]].(queued := false)]))
  {
    hide Indexed, PostponedIndexed, Counted, NodesBelow;
    var c := b.queue[0];
    assert c in b.queue;
    var cl := b.cs[c].(queued := false);
    assert forall d | d in b.queue[1..] :: d != c;
    assert forall d | d in b.queue && d != c :: d in b.queue[1..];
    IndexSame(b.cs, b.bk, c, cl);
    PostponeSame(b.cs, b.pp, c, cl);
    CountSame(b.cs, b.total, b.byType, c, cl);
  }
}
