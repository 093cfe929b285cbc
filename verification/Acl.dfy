/**
 The command part of an ACL selector (acl.c): the rules that change it, the check that a
 client may run a command, and the printer that turns a selector back into rules.

 The bitmap words are modelled as the set of their bits. A rule stands for its text after
 splitting: the sign, `@category` by its place in the category table, and the command name
 split at '|'.
 */
module Acl {
  import opened Options

  const BITS := 1024
  const RESERVED_BIT := 1023
  const CATEGORIES := 21
  const INT_MAX := 2147483647

  // ------------------------------------------------------------------ commands

  datatype Sub = Sub(name: string, id: nat, categories: set<nat>, isModule: bool)

  /** A command with its subcommands; no subcommand has subcommands of its own. */
  datatype Command = Command(name: string, id: nat, categories: set<nat>, isModule: bool, subs: seq<Sub>)

  function Fold(s: string): string {
    seq(|s|, i requires 0 <= i < |s| => if 'A' <= s[i] <= 'Z' then (s[i] - 'A') + 'a' else s[i])
  }

  /** strcasecmp is zero. */
  predicate SameName(a: string, b: string) { Fold(a) == Fold(b) }

  function SubIds(subs: seq<Sub>): set<nat> { set s | s in subs :: s.id }

  function CommandIds(c: Command): set<nat> { {c.id} + SubIds(c.subs) }

  ghost predicate WellFormedCommand(c: Command) {
    && (forall id | id in CommandIds(c) :: id < RESERVED_BIT)
    && c.id !in SubIds(c.subs)
    && (forall j, l | 0 <= j < l < |c.subs| :: c.subs[j].id != c.subs[l].id)
    && (forall j, l | 0 <= j < l < |c.subs| :: !SameName(c.subs[j].name, c.subs[l].name))
    && (forall j | 0 <= j < |c.subs| :: c.subs[j].name != "")
  }

  /** A fixed table: distinct names, distinct ids, all of them below the reserved bit. */
  ghost predicate WellFormed(t: seq<Command>) {
    && (forall i | 0 <= i < |t| :: WellFormedCommand(t[i]))
    && (forall i, k | 0 <= i < k < |t| :: CommandIds(t[i]) !! CommandIds(t[k]))
    && (forall i, k | 0 <= i < k < |t| :: !SameName(t[i].name, t[k].name))
  }

  ghost predicate HasId(t: seq<Command>, id: nat) {
    exists i | 0 <= i < |t| :: id in CommandIds(t[i])
  }

  ghost predicate AllHeld(t: seq<Command>, ids: set<nat>) {
    forall id | id in ids :: HasId(t, id)
  }

  datatype Ref = Top(i: nat) | SubOf(i: nat, j: nat)

  predicate ValidRef(t: seq<Command>, r: Ref) {
    r.i < |t| && (r.SubOf? ==> r.j < |t[r.i].subs|)
  }

  function FindCommand(t: seq<Command>, name: string): (r: Option<nat>)
    ensures r.Some? ==> r.value < |t| && SameName(t[r.value].name, name)
    ensures r.None? ==> forall i | 0 <= i < |t| :: !SameName(t[i].name, name)
  {
    if |t| == 0 then None
    else if SameName(t[|t| - 1].name, name) then Some(|t| - 1)
    else FindCommand(t[..|t| - 1], name)
  }

  function FindSub(subs: seq<Sub>, name: string): (r: Option<nat>)
    ensures r.Some? ==> r.value < |subs| && SameName(subs[r.value].name, name)
    ensures r.None? ==> forall i | 0 <= i < |subs| :: !SameName(subs[i].name, name)
  {
    if |subs| == 0 then None
    else if SameName(subs[|subs| - 1].name, name) then Some(|subs| - 1)
    else FindSub(subs[..|subs| - 1], name)
  }

  /** `ACLLookupCommand` on a name split at '|'. */
  function Lookup(t: seq<Command>, path: seq<string>): (r: Option<Ref>)
    ensures r.Some? ==> ValidRef(t, r.value)
  {
    if |path| == 0 || |path| > 2 then None
    else match FindCommand(t, path[0])
      case None => None
      case Some(i) =>
        if |path| == 1 then Some(Top(i))
        else if |t[i].subs| == 0 then None
        else match FindSub(t[i].subs, path[1])
          case None => None
          case Some(j) => Some(SubOf(i, j))
  }

  lemma LookupPrinted(t: seq<Command>, r: Ref)
    requires WellFormed(t) && ValidRef(t, r)
    ensures Lookup(t, FullName(t, r)) == Some(r)
  {
  }

  /** The name the printer emits, split at '|'. */
  function FullName(t: seq<Command>, r: Ref): seq<string>
    requires ValidRef(t, r)
  {
    match r
    case Top(i) => [t[i].name]
    case SubOf(i, j) => [t[i].name, t[i].subs[j].name]
  }

  // ------------------------------------------------------------------ selectors

  /** flags & ALLCOMMANDS, the set bits of the bitmap, and the first arguments of each command id. */
  datatype Selector = Selector(all: bool, bits: set<nat>, args: map<nat, seq<string>>)

  const EMPTY := Selector(false, {}, map[])

  function EveryBit(): (s: set<nat>)
    ensures forall i: nat :: i in s <==> i < BITS
  {
    var range := seq(BITS, (k: nat) => k);
    assert forall i: nat | i < BITS :: i in range by {
      forall i: nat | i < BITS ensures i in range { assert range[i] == i; }
    }
    set i | i in range
  }

  /** Every listed bit set or cleared; clearing any bit ends "all commands". */
  function Grant(s: Selector, ids: set<nat>, value: bool): Selector {
    if value then s.(bits := s.bits + ids)
    else if ids == {} then s
    else s.(bits := s.bits - ids, all := false)
  }

  function Forget(s: Selector, ids: set<nat>): Selector { s.(args := s.args - ids) }

  function IdOf(t: seq<Command>, r: Ref): nat
    requires ValidRef(t, r)
  {
    match r
    case Top(i) => t[i].id
    case SubOf(i, j) => t[i].subs[j].id
  }

  /** The ids a rule about one command reaches: a container brings its subcommands. */
  function IdsOf(t: seq<Command>, r: Ref): set<nat>
    requires ValidRef(t, r)
  {
    match r
    case Top(i) => CommandIds(t[i])
    case SubOf(i, j) => {t[i].subs[j].id}
  }

  function WithPerm(t: seq<Command>, s: Selector, r: Ref, value: bool): Selector
    requires ValidRef(t, r)
  {
    Forget(Grant(s, IdsOf(t, r), value), {IdOf(t, r)})
  }

  /** The commands and subcommands that carry category `c` themselves. */
  function Tagged(cmd: Command, c: nat): set<nat> {
    if cmd.isModule then {}
    else (if c in cmd.categories then {cmd.id} else {})
         + TaggedSubs(cmd.subs, c)
  }

  /** What a category rule reaches in one command: a tagged container brings all its subcommands. */
  function Reached(cmd: Command, c: nat): set<nat> {
    Tagged(cmd, c) + (if !cmd.isModule && c in cmd.categories then SubIds(cmd.subs) else {})
  }

  function TaggedIn(t: seq<Command>, c: nat): set<nat> {
    if |t| == 0 then {} else TaggedIn(t[..|t| - 1], c) + Tagged(t[|t| - 1], c)
  }

  function ReachedIn(t: seq<Command>, c: nat): set<nat> {
    if |t| == 0 then {} else ReachedIn(t[..|t| - 1], c) + Reached(t[|t| - 1], c)
  }

  function WithCategory(t: seq<Command>, s: Selector, c: nat, value: bool): Selector {
    Forget(Grant(s, ReachedIn(t, c), value), TaggedIn(t, c))
  }

  function ArgsOf(s: Selector, id: nat): seq<string> {
    if id in s.args then s.args[id] else []
  }

  predicate Listed(list: seq<string>, arg: string) {
    exists i | 0 <= i < |list| :: SameName(list[i], arg)
  }

  function AddArg(s: Selector, id: nat, arg: string): Selector {
    if Listed(ArgsOf(s, id), arg) then s
    else s.(args := s.args[id := ArgsOf(s, id) + [arg]])
  }

  // ------------------------------------------------------------------ rules

  datatype Rule =
    | Everything(allow: bool)
    | Category(allow: bool, category: nat)
    | Name(allow: bool, path: seq<string>)

  /** `ACLSetSelector` on its command branches; None is C_ERR. */
  function Apply(t: seq<Command>, s: Selector, rule: Rule): Option<Selector> {
    match rule
    case Everything(allow) =>
      Some(if allow then Selector(true, EveryBit(), map[]) else Selector(false, {}, map[]))
    case Category(allow, c) =>
      if c >= CATEGORIES then None else Some(WithCategory(t, s, c, allow))
    case Name(false, path) =>
      (match Lookup(t, path)
       case None => None
       case Some(r) => Some(WithPerm(t, s, r, false)))
    case Name(true, path) =>
      if |path| <= 1 then
        (match Lookup(t, path)
         case None => None
         case Some(r) => Some(WithPerm(t, s, r, true)))
      else
        (match Lookup(t, path[..|path| - 1])
         case None => None
         case Some(SubOf(_, _)) => None
         case Some(Top(i)) =>
           if path[|path| - 1] == "" then None
           else if |t[i].subs| > 0 then
             (match Lookup(t, path)
              case None => None
              case Some(r) => Some(WithPerm(t, s, r, true)))
           else Some(AddArg(s, t[i].id, path[|path| - 1])))
  }

  function Replay(t: seq<Command>, s: Selector, rules: seq<Rule>): Option<Selector> {
    if |rules| == 0 then Some(s)
    else match Replay(t, s, rules[..|rules| - 1])
      case None => None
      case Some(x) => Apply(t, x, rules[|rules| - 1])
  }

  lemma ReplayOne(t: seq<Command>, s: Selector, rules: seq<Rule>, rule: Rule)
    requires Replay(t, s, rules).Some?
    ensures Replay(t, s, rules + [rule]) == Apply(t, Replay(t, s, rules).value, rule)
  {
    assert (rules + [rule])[..|rules|] == rules;
  }

  // ------------------------------------------------------------------ the check

  /** `ACLSelectorCheckCmd`, command part. `argv` holds the command name first. */
  predicate Allowed(t: seq<Command>, s: Selector, r: Ref, noAuth: bool, argv: seq<string>)
    requires ValidRef(t, r)
  {
    || s.all || noAuth || IdOf(t, r) in s.bits
    || (|argv| >= 2 &&
        var idx := if r.SubOf? then 2 else 1;
        idx < |argv| && Listed(ArgsOf(s, IdOf(t, r)), argv[idx]))
  }

  // ------------------------------------------------------------------ what each rule means

  lemma {:induction false} TaggedInIs(t: seq<Command>, c: nat, id: nat)
    ensures id in TaggedIn(t, c) <==>
      (exists i | 0 <= i < |t| ::
         !t[i].isModule && ((c in t[i].categories && id == t[i].id)
                            || exists j | 0 <= j < |t[i].subs| :: !t[i].subs[j].isModule && c in t[i].subs[j].categories && id == t[i].subs[j].id))
  {
    hide Tagged;
    if |t| > 0 {
      TaggedInIs(t[..|t| - 1], c, id);
      assert forall i | 0 <= i < |t| - 1 :: t[..|t| - 1][i] == t[i];
      TaggedIs(t[|t| - 1], c, id);
    }
  }

  lemma {:induction false} ReachedInIs(t: seq<Command>, c: nat, id: nat)
    ensures id in ReachedIn(t, c) <==>
      (exists i | 0 <= i < |t| ::
         !t[i].isModule && ((c in t[i].categories && (id == t[i].id || exists j | 0 <= j < |t[i].subs| :: id == t[i].subs[j].id))
                            || exists j | 0 <= j < |t[i].subs| :: !t[i].subs[j].isModule && c in t[i].subs[j].categories && id == t[i].subs[j].id))
  {
    hide Reached, Tagged;
    if |t| > 0 {
      ReachedInIs(t[..|t| - 1], c, id);
      assert forall i | 0 <= i < |t| - 1 :: t[..|t| - 1][i] == t[i];
      TaggedIs(t[|t| - 1], c, id);
      ReachedIs(t[|t| - 1], c, id);
    }
  }

  lemma TaggedIs(cmd: Command, c: nat, id: nat)
    ensures id in Tagged(cmd, c) <==>
      (!cmd.isModule &&
       ((c in cmd.categories && id == cmd.id) || exists j | 0 <= j < |cmd.subs| :: !cmd.subs[j].isModule && c in cmd.subs[j].categories && id == cmd.subs[j].id))
  {
    TaggedSubIs(cmd.subs, c, id);
  }

  lemma TaggedSubIs(subs: seq<Sub>, c: nat, id: nat)
    ensures id in TaggedSubs(subs, c) <==> exists j | 0 <= j < |subs| :: !subs[j].isModule && c in subs[j].categories && id == subs[j].id
  {
    if id in TaggedSubs(subs, c) {
      var s :| s in subs && !s.isModule && c in s.categories && s.id == id;
      var j :| 0 <= j < |subs| && subs[j] == s;
    }
  }

  lemma SubIdIs(subs: seq<Sub>, id: nat)
    ensures id in SubIds(subs) <==> exists j | 0 <= j < |subs| :: id == subs[j].id
  {
    if id in SubIds(subs) {
      var s :| s in subs && s.id == id;
      var j :| 0 <= j < |subs| && subs[j] == s;
    }
  }

  lemma ReachedIs(cmd: Command, c: nat, id: nat)
    ensures id in Reached(cmd, c) <==>
      (id in Tagged(cmd, c) || (!cmd.isModule && c in cmd.categories && exists j | 0 <= j < |cmd.subs| :: id == cmd.subs[j].id))
  {
    hide Tagged, SubIds;
    SubIdIs(cmd.subs, id);
  }

  /** What `+@c` and `-@c` do to one command id: commands of the category, what stands below them, and subcommands of it. */
  lemma CategoryRule(t: seq<Command>, s: Selector, c: nat, allow: bool, id: nat)
    requires c < CATEGORIES
    ensures var after := Apply(t, s, Category(allow, c));
      && after.Some?
      && (id in after.value.bits <==>
          if exists i | 0 <= i < |t| ::
               !t[i].isModule && ((c in t[i].categories && (id == t[i].id || exists j | 0 <= j < |t[i].subs| :: id == t[i].subs[j].id))
                                  || exists j | 0 <= j < |t[i].subs| :: !t[i].subs[j].isModule && c in t[i].subs[j].categories && id == t[i].subs[j].id)
          then allow else id in s.bits)
      && (id in after.value.args <==>
          id in s.args && !exists i | 0 <= i < |t| ::
               !t[i].isModule && ((c in t[i].categories && id == t[i].id)
                                  || exists j | 0 <= j < |t[i].subs| :: !t[i].subs[j].isModule && c in t[i].subs[j].categories && id == t[i].subs[j].id))
      && (id in after.value.args ==> after.value.args[id] == s.args[id])
  {
    hide Tagged, Reached, TaggedIn, ReachedIn;
    TaggedInIs(t, c, id);
    ReachedInIs(t, c, id);
  }

  /** So a command of the category and all its subcommands may be run after `+@c`, and after `-@c` only without authentication. */
  lemma CategoryAnswers(t: seq<Command>, s: Selector, c: nat, allow: bool, i: nat, j: nat, noAuth: bool, argv: seq<string>)
    requires WellFormed(t) && c < CATEGORIES && i < |t| && !t[i].isModule && c in t[i].categories
    ensures var after := Apply(t, s, Category(allow, c));
      && after.Some?
      && (Allowed(t, after.value, Top(i), noAuth, argv) <==> allow || noAuth)
      && (j < |t[i].subs| && t[i].subs[j].id !in s.args ==> (Allowed(t, after.value, SubOf(i, j), noAuth, argv) <==> allow || noAuth))
  {
    hide WellFormed;
    CategoryRule(t, s, c, allow, t[i].id);
    CategoryEndsAll(t, s, c, i, t[i].id);
    if j < |t[i].subs| { CategoryRule(t, s, c, allow, t[i].subs[j].id); }
    hide Apply;
  }

  /** A subcommand of the category below a command that is not. */
  lemma SubCategoryAnswers(t: seq<Command>, s: Selector, c: nat, allow: bool, i: nat, j: nat, noAuth: bool, argv: seq<string>)
    requires WellFormed(t) && c < CATEGORIES && i < |t| && !t[i].isModule
    requires j < |t[i].subs| && !t[i].subs[j].isModule && c in t[i].subs[j].categories
    ensures var after := Apply(t, s, Category(allow, c));
      after.Some? && (Allowed(t, after.value, SubOf(i, j), noAuth, argv) <==> allow || noAuth)
  {
    hide WellFormed;
    CategoryRule(t, s, c, allow, t[i].subs[j].id);
    CategoryEndsAll(t, s, c, i, t[i].subs[j].id);
    hide Apply;
  }

  /** Taking a category away ends "all commands" as soon as one command is of the category. */
  lemma CategoryEndsAll(t: seq<Command>, s: Selector, c: nat, i: nat, id: nat)
    requires c < CATEGORIES && i < |t| && !t[i].isModule
    requires (c in t[i].categories && id == t[i].id)
             || exists j | 0 <= j < |t[i].subs| :: !t[i].subs[j].isModule && c in t[i].subs[j].categories && id == t[i].subs[j].id
    ensures Apply(t, s, Category(true, c)).Some? && Apply(t, s, Category(true, c)).value.all == s.all
    ensures Apply(t, s, Category(false, c)).Some? && !Apply(t, s, Category(false, c)).value.all
  {
    hide Tagged, Reached, TaggedIn, ReachedIn;
    ReachedInIs(t, c, id);
    assert id in ReachedIn(t, c);
  }

  /** `+@all` lets everything through, `-@all` nothing. */
  lemma EverythingRule(t: seq<Command>, s: Selector, allow: bool, r: Ref, noAuth: bool, argv: seq<string>)
    requires ValidRef(t, r)
    ensures var after := Apply(t, s, Everything(allow)); after.Some? && (Allowed(t, after.value, r, noAuth, argv) <==> allow || noAuth)
  {
  }

  /** `+name` and `-name`, in upper or lower case: the command and its subcommands, and no other id. */
  lemma NameRule(t: seq<Command>, s: Selector, allow: bool, i: nat, name: string, id: nat)
    requires WellFormed(t) && i < |t| && SameName(t[i].name, name)
    ensures var after := Apply(t, s, Name(allow, [name]));
      && after.Some?
      && (id in after.value.bits <==> if id == t[i].id || exists j | 0 <= j < |t[i].subs| :: id == t[i].subs[j].id then allow else id in s.bits)
      && (id in after.value.args <==> id in s.args && id != t[i].id) && (id in after.value.args ==> after.value.args[id] == s.args[id])
      && after.value.all == (s.all && allow)
  {
    hide SameName, SubIds;
    LookupCommand(t, i, name);
    SubIdIs(t[i].subs, id);
    hide WellFormed, Lookup;
  }

  lemma LookupCommand(t: seq<Command>, i: nat, name: string)
    requires WellFormed(t) && i < |t| && SameName(t[i].name, name)
    ensures Lookup(t, [name]) == Some(Top(i)) && FindCommand(t, name) == Some(i)
  {
    hide WellFormedCommand;
    SameNamesMeet(t, name);
  }

  lemma SameNamesMeet(t: seq<Command>, name: string)
    ensures forall i, k | 0 <= i < |t| && 0 <= k < |t| && SameName(t[i].name, name) && SameName(t[k].name, name) :: SameName(t[i].name, t[k].name)
  {
  }

  /** `+name|sub` and `-name|sub`: that subcommand alone. */
  lemma SubNameRule(t: seq<Command>, s: Selector, allow: bool, i: nat, j: nat, name: string, sub: string, id: nat)
    requires WellFormed(t) && i < |t| && SameName(t[i].name, name) && j < |t[i].subs| && SameName(t[i].subs[j].name, sub)
    ensures var after := Apply(t, s, Name(allow, [name, sub]));
      && after.Some?
      && (id in after.value.bits <==> if id == t[i].subs[j].id then allow else id in s.bits)
      && (id in after.value.args <==> id in s.args && id != t[i].subs[j].id) && (id in after.value.args ==> after.value.args[id] == s.args[id])
      && after.value.all == (s.all && allow)
  {
    LookupCommand(t, i, name);
    LookupSub(t, i, j, name, sub);
    assert [name, sub][..1] == [name];
    hide WellFormed, Lookup, SameName;
  }

  lemma LookupSub(t: seq<Command>, i: nat, j: nat, name: string, sub: string)
    requires WellFormed(t) && i < |t| && SameName(t[i].name, name) && j < |t[i].subs| && SameName(t[i].subs[j].name, sub)
    ensures Lookup(t, [name, sub]) == Some(SubOf(i, j)) && sub != ""
  {
    LookupCommand(t, i, name);
    assert WellFormedCommand(t[i]);
    assert t[i].subs[j].name != "";
    assert |Fold(t[i].subs[j].name)| == |Fold(sub)|;
  }

  /** `+name|arg` on a command without subcommands allows it with that first argument and changes nothing else; `-name|arg` is refused. */
  lemma FirstArgRule(t: seq<Command>, s: Selector, i: nat, name: string, arg: string, id: nat, x: string)
    requires WellFormed(t) && i < |t| && SameName(t[i].name, name) && |t[i].subs| == 0
    ensures Apply(t, s, Name(false, [name, arg])).None?
    ensures Apply(t, s, Name(true, [name, arg])).Some? <==> arg != ""
    ensures arg != "" ==>
      var after := Apply(t, s, Name(true, [name, arg])).value;
      && after.bits == s.bits && after.all == s.all
      && ((exists k | 0 <= k < |ArgsOf(after, id)| :: SameName(ArgsOf(after, id)[k], x))
          <==> (exists k | 0 <= k < |ArgsOf(s, id)| :: SameName(ArgsOf(s, id)[k], x)) || (id == t[i].id && SameName(arg, x)))
  {
    LookupCommand(t, i, name);
    assert [name, arg][..1] == [name];
    hide WellFormed, Fold;
    if arg != "" { AddedArgs(s, t[i].id, arg, id, x); }
  }

  lemma AddedArgs(s: Selector, at: nat, arg: string, id: nat, x: string)
    ensures var after := AddArg(s, at, arg);
      (exists k | 0 <= k < |ArgsOf(after, id)| :: SameName(ArgsOf(after, id)[k], x))
      <==> (exists k | 0 <= k < |ArgsOf(s, id)| :: SameName(ArgsOf(s, id)[k], x)) || (id == at && SameName(arg, x))
  {
    hide Fold;
    var list := ArgsOf(s, at);
    if id == at && Listed(list, arg) {
      var k :| 0 <= k < |list| && SameName(list[k], arg);
      assert SameName(arg, x) ==> SameName(list[k], x);
    } else if id == at {
      assert ArgsOf(AddArg(s, at, arg), id) == list + [arg];
      ListedMore(list, arg, x);
    } else {
      assert ArgsOf(AddArg(s, at, arg), id) == ArgsOf(s, id);
    }
  }

  lemma ListedMore(list: seq<string>, arg: string, x: string)
    ensures (exists k | 0 <= k < |list + [arg]| :: SameName((list + [arg])[k], x))
            <==> (exists k | 0 <= k < |list| :: SameName(list[k], x)) || SameName(arg, x)
  {
    hide SameName;
    if k :| 0 <= k < |list| && SameName(list[k], x) { assert (list + [arg])[k] == list[k]; }
    assert (list + [arg])[|list|] == arg;
  }

  /** A name that no command has is refused, and changes nothing. */
  lemma UnknownName(t: seq<Command>, s: Selector, allow: bool, path: seq<string>)
    requires |path| > 0 && forall i | 0 <= i < |t| :: !SameName(t[i].name, path[0])
    ensures Apply(t, s, Name(allow, path)).None?
  {
    hide SameName;
    if |path| > 1 { assert path[..|path| - 1][0] == path[0]; }
  }

  /** Names are compared letter by letter, and only the case of an ASCII letter does not matter. */
  lemma SameNameIff(a: string, b: string)
    ensures SameName(a, b) <==>
      (|a| == |b| && forall i | 0 <= i < |a| ::
         a[i] == b[i] || ('A' <= a[i] <= 'Z' && b[i] as int == a[i] as int + 32) || ('A' <= b[i] <= 'Z' && a[i] as int == b[i] as int + 32))
  {
    if SameName(a, b) {
      assert |Fold(a)| == |a| && |Fold(b)| == |b|;
      forall i | 0 <= i < |a|
        ensures a[i] == b[i] || ('A' <= a[i] <= 'Z' && b[i] as int == a[i] as int + 32) || ('A' <= b[i] <= 'Z' && a[i] as int == b[i] as int + 32)
      {
        assert Fold(a)[i] == Fold(b)[i];
      }
    }
  }

  /** A command with no bit set is let through with a listed first argument, and a command open to all always. */
  lemma AllowedIff(t: seq<Command>, s: Selector, i: nat, argv: seq<string>)
    requires i < |t|
    ensures Allowed(t, s, Top(i), true, argv)
    ensures Allowed(t, s, Top(i), false, argv) <==>
      (s.all || t[i].id in s.bits
       || (|argv| >= 2 && t[i].id in s.args && exists k | 0 <= k < |s.args[t[i].id]| :: SameName(s.args[t[i].id][k], argv[1])))
    ensures forall j | 0 <= j < |t[i].subs| ::
      && Allowed(t, s, SubOf(i, j), true, argv)
      && (t[i].subs[j].id !in s.args ==> (Allowed(t, s, SubOf(i, j), false, argv) <==> s.all || t[i].subs[j].id in s.bits))
  {
    hide SameName;
  }

  // ------------------------------------------------------------------ what every selector keeps

  ghost predicate Distinct(list: seq<string>) {
    forall i, k | 0 <= i < k < |list| :: !SameName(list[i], list[k])
  }

  ghost predicate Plain(t: seq<Command>, id: nat) {
    exists i | 0 <= i < |t| :: t[i].id == id && |t[i].subs| == 0
  }

  ghost predicate GoodList(list: seq<string>) {
    list != [] && "" !in list && Distinct(list)
  }

  ghost predicate GoodArgs(t: seq<Command>, args: map<nat, seq<string>>) {
    forall id | id in args :: Plain(t, id) && GoodList(args[id])
  }

  /** Bits of no command move together with the reserved bit, "all commands" means every bit, and
      first arguments hang only on commands without subcommands. */
  ghost predicate Good(t: seq<Command>, s: Selector) {
    && s.bits <= EveryBit()
    && (s.all ==> s.bits == EveryBit())
    && (forall id: nat | id < BITS && !HasId(t, id) :: id in s.bits <==> RESERVED_BIT in s.bits)
    && GoodArgs(t, s.args)
  }

  lemma ReachedAreCommands(t: seq<Command>, c: nat)
    ensures AllHeld(t, ReachedIn(t, c))
    ensures TaggedIn(t, c) <= ReachedIn(t, c)
  {
    if |t| > 0 {
      var front, last := t[..|t| - 1], t[|t| - 1];
      ReachedAreCommands(front, c);
      forall id | id in ReachedIn(t, c) ensures HasId(t, id) {
        if id in ReachedIn(front, c) {
          var i :| 0 <= i < |front| && id in CommandIds(front[i]);
          assert id in CommandIds(t[i]);
        } else {
          assert id in CommandIds(last);
        }
      }
    }
  }

  lemma GrantKeepsGood(t: seq<Command>, s: Selector, ids: set<nat>, value: bool)
    requires WellFormed(t) && Good(t, s) && AllHeld(t, ids)
    ensures Good(t, Grant(s, ids, value))
  {
  }

  lemma AddArgKeepsGood(t: seq<Command>, s: Selector, i: nat, arg: string)
    requires Good(t, s) && i < |t| && |t[i].subs| == 0 && arg != ""
    ensures Good(t, AddArg(s, t[i].id, arg))
  {
    hide SameName;
    var id := t[i].id;
    var list := ArgsOf(s, id);
    assert Plain(t, id);
    if !Listed(list, arg) { assert GoodList(list + [arg]); }
  }

  lemma ChangePermKeepsGood(t: seq<Command>, s: Selector, r: Ref, value: bool)
    requires WellFormed(t) && Good(t, s) && ValidRef(t, r)
    ensures Good(t, WithPerm(t, s, r, value))
  {
    assert forall id | id in IdsOf(t, r) :: id in CommandIds(t[r.i]);
    GrantKeepsGood(t, s, IdsOf(t, r), value);
  }

  lemma ChangeCategoryKeepsGood(t: seq<Command>, s: Selector, c: nat, value: bool)
    requires WellFormed(t) && Good(t, s)
    ensures Good(t, WithCategory(t, s, c, value))
  {
    ReachedAreCommands(t, c);
    GrantKeepsGood(t, s, ReachedIn(t, c), value);
  }

  lemma ApplyKeepsGood(t: seq<Command>, s: Selector, rule: Rule)
    requires WellFormed(t) && Good(t, s) && Apply(t, s, rule).Some?
    ensures Good(t, Apply(t, s, rule).value)
  {
    match rule
    case Everything(_) =>
    case Category(allow, c) =>
      ChangeCategoryKeepsGood(t, s, c, allow);
    case Name(allow, path) => {
      hide Good, WellFormed, WithPerm, AddArg, Lookup;
      if Lookup(t, path).Some? { ChangePermKeepsGood(t, s, Lookup(t, path).value, allow); }
      if allow && |path| > 1 {
        var l := Lookup(t, path[..|path| - 1]);
        if l.Some? && l.value.Top? && |t[l.value.i].subs| == 0 && path[|path| - 1] != "" {
          AddArgKeepsGood(t, s, l.value.i, path[|path| - 1]);
        }
      }
    }
  }

  lemma EmptyIsGood(t: seq<Command>)
    ensures Good(t, EMPTY)
  {
  }

  /** Every selector that rules can build is good. */
  lemma {:induction false} ReachableIsGood(t: seq<Command>, rules: seq<Rule>)
    requires WellFormed(t) && Replay(t, EMPTY, rules).Some?
    ensures Good(t, Replay(t, EMPTY, rules).value)
  {
    hide Good, WellFormed, Apply;
    if |rules| == 0 {
      EmptyIsGood(t);
    } else {
      ReachableIsGood(t, rules[..|rules| - 1]);
      ApplyKeepsGood(t, Replay(t, EMPTY, rules[..|rules| - 1]).value, rules[|rules| - 1]);
    }
  }

  // ------------------------------------------------------------------ the printer

  /** Commands and subcommands of category `c` whose bit is set (`on`) or clear. */
  function CountSubs(subs: seq<Sub>, c: nat, bits: set<nat>, on: bool): nat {
    if |subs| == 0 then 0
    else
      var s := subs[|subs| - 1];
      CountSubs(subs[..|subs| - 1], c, bits, on)
      + (if c in s.categories && (s.id in bits) == on then 1 else 0)
  }

  function CountIn(t: seq<Command>, c: nat, bits: set<nat>, on: bool): nat {
    if |t| == 0 then 0
    else
      var cmd := t[|t| - 1];
      CountIn(t[..|t| - 1], c, bits, on)
      + (if c in cmd.categories && (cmd.id in bits) == on then 1 else 0)
      + CountSubs(cmd.subs, c, bits, on)
  }

  /** `ACLCountCategoryBitsForSelector` */
  method CountCategory(t: seq<Command>, bits: set<nat>, c: nat) returns (on: nat, off: nat)
    ensures on == CountIn(t, c, bits, true) && off == CountIn(t, c, bits, false)
  {
    on, off := 0, 0;
    for i := 0 to |t|
      invariant on == CountIn(t[..i], c, bits, true) && off == CountIn(t[..i], c, bits, false)
    {
      assert t[..i + 1][..i] == t[..i];
      ghost var on0, off0 := on, off;
      var cmd := t[i];
      if c in cmd.categories {
        if cmd.id in bits { on := on + 1; } else { off := off + 1; }
      }
      ghost var on1, off1 := on, off;
      for j := 0 to |cmd.subs|
        invariant on == on1 + CountSubs(cmd.subs[..j], c, bits, true)
        invariant off == off1 + CountSubs(cmd.subs[..j], c, bits, false)
      {
        assert cmd.subs[..j + 1][..j] == cmd.subs[..j];
        var s := cmd.subs[j];
        if c in s.categories {
          if s.id in bits { on := on + 1; } else { off := off + 1; }
        }
      }
      assert cmd.subs[..|cmd.subs|] == cmd.subs;
    }
    assert t[..|t|] == t;
  }

  /** How many commands of the category the rule would get wrong, and how many right. */
  function Diff(t: seq<Command>, bits: set<nat>, additive: bool, c: nat): nat { CountIn(t, c, bits, !additive) }
  function Same(t: seq<Command>, bits: set<nat>, additive: bool, c: nat): nat { CountIn(t, c, bits, additive) }

  predicate Eligible(t: seq<Command>, bits: set<nat>, additive: bool, applied: seq<bool>, c: nat)
    requires |applied| == CATEGORIES
  {
    && c < CATEGORIES && !applied[c]
    && Same(t, bits, additive, c) > Diff(t, bits, additive, c)
    && Diff(t, bits, additive, c) <= INT_MAX
  }

  /** One pass of the category loop: the eligible category with the fewest differences, and among
      those the most in common; -1 when there is none. */
  method BestCategory(t: seq<Command>, bits: set<nat>, additive: bool, applied: seq<bool>) returns (best: int)
    requires |applied| == CATEGORIES
    ensures best == -1 ==> forall c: nat :: !Eligible(t, bits, additive, applied, c)
    ensures best != -1 ==>
      && 0 <= best && Eligible(t, bits, additive, applied, best)
      && forall c: nat | Eligible(t, bits, additive, applied, c) ::
           || Diff(t, bits, additive, best) < Diff(t, bits, additive, c)
           || (Diff(t, bits, additive, best) == Diff(t, bits, additive, c)
               && Same(t, bits, additive, best) >= Same(t, bits, additive, c))
  {
    hide CountIn;
    best := -1;
    var mindiff, maxsame := INT_MAX, 0;
    for j := 0 to CATEGORIES
      invariant best == -1 ==> mindiff == INT_MAX && maxsame == 0
      invariant best == -1 ==> forall c: nat | c < j :: !Eligible(t, bits, additive, applied, c)
      invariant best != -1 ==>
        && 0 <= best < j && Eligible(t, bits, additive, applied, best)
        && mindiff == Diff(t, bits, additive, best) && maxsame == Same(t, bits, additive, best)
        && forall c: nat | c < j && Eligible(t, bits, additive, applied, c) ::
             mindiff < Diff(t, bits, additive, c)
             || (mindiff == Diff(t, bits, additive, c) && maxsame >= Same(t, bits, additive, c))
    {
      if applied[j] { continue; }
      var on, off := CountCategory(t, bits, j);
      var diff := if additive then off else on;
      var same := if additive then on else off;
      assert diff == Diff(t, bits, additive, j) && same == Same(t, bits, additive, j);
      if same > diff && (diff < mindiff || (diff == mindiff && same > maxsame)) {
        best := j;
        mindiff := diff;
        maxsame := same;
      }
    }
  }

  /** Rules printed for a command or subcommand change exactly that one. */
  lemma PrintedNameApplies(t: seq<Command>, s: Selector, r: Ref, value: bool)
    requires WellFormed(t) && ValidRef(t, r)
    ensures Apply(t, s, Name(value, FullName(t, r))) == Some(WithPerm(t, s, r, value))
  {
    hide WithPerm, Lookup;
    LookupPrinted(t, r);
    if r.SubOf? {
      LookupPrinted(t, Top(r.i));
      assert FullName(t, r)[..1] == FullName(t, Top(r.i));
      assert WellFormedCommand(t[r.i]);
    }
  }

  lemma PrintedArgApplies(t: seq<Command>, s: Selector, i: nat, arg: string)
    requires WellFormed(t) && i < |t| && |t[i].subs| == 0 && arg != ""
    ensures Apply(t, s, Name(true, [t[i].name, arg])) == Some(AddArg(s, t[i].id, arg))
  {
    hide AddArg, Lookup;
    LookupPrinted(t, Top(i));
    assert [t[i].name, arg][..1] == FullName(t, Top(i));
  }

  /** The shadow selector and the replayed rules agree on the bitmap. */
  ghost predicate InStep(t: seq<Command>, rules: seq<Rule>, fake: Selector, r: Selector) {
    && Replay(t, EMPTY, rules) == Some(r)
    && r.bits == fake.bits && r.all == fake.all
    && Good(t, fake)
  }

  ghost predicate SameReserved(s: Selector, fake: Selector) {
    RESERVED_BIT in s.bits <==> RESERVED_BIT in fake.bits
  }

  /** Command `k` is finished: its bits are the selector's, and so are its first arguments when they matter. */
  ghost predicate BitsDone(t: seq<Command>, s: Selector, fake: Selector, k: nat)
    requires k < |t|
  {
    forall id | id in CommandIds(t[k]) :: id in fake.bits <==> id in s.bits
  }

  ghost predicate ArgsDone(t: seq<Command>, s: Selector, r: Selector, k: nat)
    requires k < |t|
  {
    ArgsOf(r, t[k].id) == if t[k].id in s.bits then [] else ArgsOf(s, t[k].id)
  }

  ghost predicate NamesCommand(t: seq<Command>, path: seq<string>) { exists ref :: ValidRef(t, ref) && path == FullName(t, ref) }

  ghost predicate NamesArg(t: seq<Command>, s: Selector, path: seq<string>) {
    |path| == 2 && exists i | 0 <= i < |t| :: path[0] == t[i].name && t[i].id !in s.bits && path[1] in ArgsOf(s, t[i].id)
  }

  /** What a rule printed for `s` can be. */
  ghost predicate Emitted(t: seq<Command>, s: Selector, rule: Rule) {
    match rule
    case Everything(_) => true
    case Category(_, c) => c < CATEGORIES
    case Name(allow, path) => NamesCommand(t, path) || (allow && NamesArg(t, s, path))
  }

  ghost predicate AllEmitted(t: seq<Command>, s: Selector, rules: seq<Rule>) {
    forall k | 0 <= k < |rules| :: Emitted(t, s, rules[k])
  }

  lemma EmitsOne(t: seq<Command>, s: Selector, rules: seq<Rule>, rule: Rule)
    requires AllEmitted(t, s, rules) && Emitted(t, s, rule)
    ensures AllEmitted(t, s, rules + [rule])
  {
    hide Emitted;
  }

  lemma EmitsName(t: seq<Command>, s: Selector, rules: seq<Rule>, ref: Ref, value: bool)
    requires AllEmitted(t, s, rules) && ValidRef(t, ref)
    ensures AllEmitted(t, s, rules + [Name(value, FullName(t, ref))])
  {
    hide AllEmitted;
    assert NamesCommand(t, FullName(t, ref));
    EmitsOne(t, s, rules, Name(value, FullName(t, ref)));
  }

  lemma EmitsArg(t: seq<Command>, s: Selector, rules: seq<Rule>, i: nat, a: string)
    requires AllEmitted(t, s, rules) && i < |t| && t[i].id !in s.bits && a in ArgsOf(s, t[i].id)
    ensures AllEmitted(t, s, rules + [Name(true, [t[i].name, a])])
  {
    hide AllEmitted, ArgsOf;
    var path := [t[i].name, a];
    assert path[0] == t[i].name && path[1] == a;
    EmitsOne(t, s, rules, Name(true, path));
  }

  lemma OneRule(t: seq<Command>, rules: seq<Rule>, fake: Selector, r: Selector, ref: Ref, value: bool)
    requires WellFormed(t) && InStep(t, rules, fake, r) && ValidRef(t, ref)
    ensures InStep(t, rules + [Name(value, FullName(t, ref))], WithPerm(t, fake, ref, value), WithPerm(t, r, ref, value))
  {
    hide WellFormed, Good, IdsOf, IdOf, FullName;
    PrintedNameApplies(t, r, ref, value);
    ReplayOne(t, EMPTY, rules, Name(value, FullName(t, ref)));
    ChangePermKeepsGood(t, fake, ref, value);
  }

  lemma OneArg(t: seq<Command>, rules: seq<Rule>, fake: Selector, r: Selector, i: nat, arg: string)
    requires WellFormed(t) && InStep(t, rules, fake, r) && i < |t| && |t[i].subs| == 0 && arg != ""
    ensures InStep(t, rules + [Name(true, [t[i].name, arg])], fake, AddArg(r, t[i].id, arg))
  {
    hide WellFormed, Good;
    PrintedArgApplies(t, r, i, arg);
    ReplayOne(t, EMPTY, rules, Name(true, [t[i].name, arg]));
  }

  /** `ACLDescribeSelectorCommandRulesSingleCommands` on one command that is not a subcommand. */
  method PrintCommand(t: seq<Command>, s: Selector, i: nat, rules0: seq<Rule>, fake0: Selector, ghost r0: Selector)
    returns (rules: seq<Rule>, fake: Selector, ghost r: Selector)
    requires WellFormed(t) && Good(t, s) && i < |t| && InStep(t, rules0, fake0, r0) && t[i].id !in r0.args
    requires AllEmitted(t, s, rules0)
    ensures InStep(t, rules, fake, r) && AllEmitted(t, s, rules) && |rules| >= |rules0|
    ensures BitsDone(t, s, fake, i) && ArgsDone(t, s, r, i)
    ensures forall id | id !in CommandIds(t[i]) :: id in fake.bits <==> id in fake0.bits
    ensures forall id | id !in CommandIds(t[i]) :: ArgsOf(r, id) == ArgsOf(r0, id)
  {
    hide AllEmitted, WellFormed, Good, InStep, WithPerm, ArgsOf, FullName, SubIds, SameName;
    SubFacts(t, i);
    rules, fake, r := rules0, fake0, r0;
    var cmd := t[i];
    var userbit := cmd.id in s.bits;
    if userbit != (cmd.id in fake.bits) {
      OneRule(t, rules, fake, r, Top(i), userbit);
      EmitsName(t, s, rules, Top(i), userbit);
      ChangeTopEffect(t, fake, i, userbit);
      ChangeTopEffect(t, r, i, userbit);
      rules := rules + [Name(userbit, FullName(t, Top(i)))];
      fake := WithPerm(t, fake, Top(i), userbit);
      r := WithPerm(t, r, Top(i), userbit);
    }
    rules, fake, r := PrintSubs(t, s, i, rules, fake, r);
    if !userbit && cmd.id in s.args {
      rules, r := PrintArgs(t, s, i, rules, fake, r);
      InStepIs(t, rules, fake, r);
    }
    ArgsOfIs(s, cmd.id);
    ArgsOfIs(r, cmd.id);
  }

  lemma ArgsOfIs(s: Selector, id: nat)
    ensures ArgsOf(s, id) == if id in s.args then s.args[id] else []
  {
  }

  lemma ChangeTopEffect(t: seq<Command>, s: Selector, i: nat, value: bool)
    requires i < |t|
    ensures var s' := WithPerm(t, s, Top(i), value);
      && (forall id :: id in s'.bits <==> if id in CommandIds(t[i]) then value else id in s.bits)
      && (forall id | id != t[i].id :: ArgsOf(s', id) == ArgsOf(s, id)) && t[i].id !in s'.args
  {
    hide SubIds;
  }

  lemma ChangeSubEffect(t: seq<Command>, s: Selector, i: nat, j: nat, value: bool)
    requires i < |t| && j < |t[i].subs|
    ensures var s' := WithPerm(t, s, SubOf(i, j), value);
      && (forall id :: id in s'.bits <==> if id == t[i].subs[j].id then value else id in s.bits)
      && (forall id | id != t[i].subs[j].id :: ArgsOf(s', id) == ArgsOf(s, id))
      && (forall id | id != t[i].subs[j].id :: id in s'.args <==> id in s.args)
  {
  }

  method PrintSubs(t: seq<Command>, s: Selector, i: nat, rules0: seq<Rule>, fake0: Selector, ghost r0: Selector)
    returns (rules: seq<Rule>, fake: Selector, ghost r: Selector)
    requires WellFormed(t) && Good(t, s) && i < |t| && InStep(t, rules0, fake0, r0) && t[i].id !in r0.args
    requires AllEmitted(t, s, rules0)
    ensures InStep(t, rules, fake, r) && t[i].id !in r.args && AllEmitted(t, s, rules) && |rules| >= |rules0|
    ensures forall id | id in SubIds(t[i].subs) :: id in fake.bits <==> id in s.bits
    ensures forall id | id !in SubIds(t[i].subs) :: id in fake.bits <==> id in fake0.bits
    ensures forall id | id !in SubIds(t[i].subs) :: ArgsOf(r, id) == ArgsOf(r0, id)
  {
    hide WellFormed, Good, InStep, SameName, WithPerm, ArgsOf, SubIds, AllEmitted;
    rules, fake, r := rules0, fake0, r0;
    var subs := t[i].subs;
    SubFacts(t, i);
    for j := 0 to |subs|
      invariant InStep(t, rules, fake, r) && t[i].id !in r.args && AllEmitted(t, s, rules) && |rules| >= |rules0|
      invariant forall l | 0 <= l < j :: subs[l].id in fake.bits <==> subs[l].id in s.bits
      invariant forall id | id !in SubIds(subs) :: id in fake.bits <==> id in fake0.bits
      invariant forall id | id !in SubIds(subs) :: ArgsOf(r, id) == ArgsOf(r0, id)
    {
      var sub := subs[j];
      var userbit := sub.id in s.bits;
      if userbit != (sub.id in fake.bits) {
        OneRule(t, rules, fake, r, SubOf(i, j), userbit);
        EmitsName(t, s, rules, SubOf(i, j), userbit);
        ChangeSubEffect(t, fake, i, j, userbit);
        ChangeSubEffect(t, r, i, j, userbit);
        rules := rules + [Name(userbit, FullName(t, SubOf(i, j)))];
        fake := WithPerm(t, fake, SubOf(i, j), userbit);
        r := WithPerm(t, r, SubOf(i, j), userbit);
      }
    }
    SubIdsCovered(subs, fake.bits, s.bits);
  }

  lemma SubFacts(t: seq<Command>, i: nat)
    requires WellFormed(t) && i < |t|
    ensures forall j | 0 <= j < |t[i].subs| :: t[i].subs[j].id in SubIds(t[i].subs)
    ensures forall j, l | 0 <= j < l < |t[i].subs| :: t[i].subs[j].id != t[i].subs[l].id
    ensures t[i].id !in SubIds(t[i].subs)
  {
    assert WellFormedCommand(t[i]);
  }

  lemma SubIdsCovered(subs: seq<Sub>, a: set<nat>, b: set<nat>)
    requires forall l | 0 <= l < |subs| :: subs[l].id in a <==> subs[l].id in b
    ensures forall id | id in SubIds(subs) :: id in a <==> id in b
  {
  }

  method PrintArgs(t: seq<Command>, s: Selector, i: nat, rules0: seq<Rule>, ghost fake: Selector, ghost r0: Selector)
    returns (rules: seq<Rule>, ghost r: Selector)
    requires WellFormed(t) && Good(t, s) && i < |t| && InStep(t, rules0, fake, r0)
    requires t[i].id !in r0.args && t[i].id in s.args && t[i].id !in s.bits && AllEmitted(t, s, rules0)
    ensures InStep(t, rules, fake, r) && AllEmitted(t, s, rules) && |rules| >= |rules0|
    ensures Replay(t, EMPTY, rules).Some? && ArgsOf(Replay(t, EMPTY, rules).value, t[i].id) == s.args[t[i].id]
    ensures forall id | id != t[i].id :: ArgsOf(r, id) == ArgsOf(r0, id)
  {
    hide SameName, WellFormed, Good, InStep, AllEmitted;
    rules, r := rules0, r0;
    var list := s.args[t[i].id];
    PlainHasNoSubs(t, s, i);
    for a := 0 to |list|
      invariant InStep(t, rules, fake, r) && AllEmitted(t, s, rules) && |rules| >= |rules0|
      invariant ArgsOf(r, t[i].id) == list[..a]
      invariant forall id | id != t[i].id :: ArgsOf(r, id) == ArgsOf(r0, id)
    {
      assert list[a] in list;
      assert !Listed(list[..a], list[a]);
      OneArg(t, rules, fake, r, i, list[a]);
      EmitsArg(t, s, rules, i, list[a]);
      rules := rules + [Name(true, [t[i].name, list[a]])];
      r := AddArg(r, t[i].id, list[a]);
      assert list[..a + 1] == list[..a] + [list[a]];
    }
    InStepIs(t, rules, fake, r);
  }

  lemma PlainHasNoSubs(t: seq<Command>, s: Selector, i: nat)
    requires WellFormed(t) && Good(t, s) && i < |t| && t[i].id in s.args
    ensures |t[i].subs| == 0 && GoodList(s.args[t[i].id])
  {
    var k :| 0 <= k < |t| && t[k].id == t[i].id && |t[k].subs| == 0;
    assert t[k].id in CommandIds(t[k]) && t[i].id in CommandIds(t[i]);
  }

  function Unapplied(applied: seq<bool>): nat {
    if |applied| == 0 then 0
    else Unapplied(applied[..|applied| - 1]) + if applied[|applied| - 1] then 0 else 1
  }

  lemma UnappliedDrops(applied: seq<bool>, i: nat)
    requires i < |applied| && !applied[i]
    ensures Unapplied(applied[i := true]) < Unapplied(applied)
  {
    var last := |applied| - 1;
    if i == last {
      assert applied[i := true][..last] == applied[..last];
    } else {
      UnappliedDrops(applied[..last], i);
      assert applied[i := true][..last] == applied[..last][i := true];
    }
  }

  /** The first half of `ACLDescribeSelectorCommandRules`: +@all or -@all, then categories while one helps. */
  method PrintCategories(t: seq<Command>, s: Selector) returns (rules: seq<Rule>, fake: Selector)
    requires WellFormed(t) && Good(t, s)
    ensures InStep(t, rules, fake, fake) && SameReserved(s, fake) && fake.args == map[]
    ensures AllEmitted(t, s, rules) && |rules| > 0
  {
    var additive := RESERVED_BIT !in s.bits;
    rules := [Everything(!additive)];
    StartRule(t, !additive);
    fake := Selector(!additive, if additive then {} else EveryBit(), map[]);
    var temp := Selector(false, s.bits, map[]);
    var applied := seq(CATEGORIES, _ => false);
    assert AllEmitted(t, s, rules);
    hide WellFormed, Good, InStep, WithCategory, Eligible, Unapplied, AllEmitted;
    while true
      invariant |applied| == CATEGORIES
      invariant InStep(t, rules, fake, fake) && SameReserved(s, fake) && fake.args == map[]
      invariant AllEmitted(t, s, rules) && |rules| > 0
      decreases Unapplied(applied)
    {
      var best := BestCategory(t, temp.bits, additive, applied);
      if best == -1 { break; }
      EligibleIs(t, temp.bits, additive, applied, best);
      OneCategory(t, rules, s, fake, best, additive);
      EmitsOne(t, s, rules, Category(additive, best));
      UnappliedDrops(applied, best);
      fake := WithCategory(t, fake, best, additive);
      temp := WithCategory(t, temp, best, !additive);
      rules := rules + [Category(additive, best)];
      applied := applied[best := true];
    }
  }

  lemma EligibleIs(t: seq<Command>, bits: set<nat>, additive: bool, applied: seq<bool>, c: nat)
    requires |applied| == CATEGORIES && Eligible(t, bits, additive, applied, c)
    ensures c < CATEGORIES && !applied[c]
  {
  }

  lemma StartRule(t: seq<Command>, allow: bool)
    ensures var x := Selector(allow, if allow then EveryBit() else {}, map[]);
      InStep(t, [Everything(allow)], x, x)
  {
    hide EveryBit, HasId;
    var x := Selector(allow, if allow then EveryBit() else {}, map[]);
    ReplayNone(t);
    ReplayOne(t, EMPTY, [], Everything(allow));
    assert [] + [Everything(allow)] == [Everything(allow)];
    StartIsGood(t, allow);
    hide Good, Replay;
    assert Apply(t, EMPTY, Everything(allow)) == Some(x);
  }

  lemma ReplayNone(t: seq<Command>)
    ensures Replay(t, EMPTY, []) == Some(EMPTY)
  {
  }

  lemma StartIsGood(t: seq<Command>, allow: bool)
    ensures Good(t, Selector(allow, if allow then EveryBit() else {}, map[]))
  {
    hide HasId;
  }

  lemma OneCategory(t: seq<Command>, rules: seq<Rule>, s: Selector, fake: Selector, c: nat, allow: bool)
    requires WellFormed(t) && InStep(t, rules, fake, fake) && SameReserved(s, fake) && fake.args == map[] && c < CATEGORIES
    ensures var fake' := WithCategory(t, fake, c, allow);
      InStep(t, rules + [Category(allow, c)], fake', fake') && SameReserved(s, fake') && fake'.args == map[]
  {
    hide Good, WellFormed;
    ReplayOne(t, EMPTY, rules, Category(allow, c));
    ChangeCategoryKeepsGood(t, fake, c, allow);
    ReachedAreCommands(t, c);
    ReservedIsNoCommand(t);
  }

  lemma ReservedIsNoCommand(t: seq<Command>)
    requires WellFormed(t)
    ensures !HasId(t, RESERVED_BIT)
  {
    assert forall i | 0 <= i < |t| :: WellFormedCommand(t[i]);
  }

  /** What holds of `rules` once commands `0..i` are printed. */
  ghost predicate Printed(t: seq<Command>, s: Selector, rules: seq<Rule>, fake: Selector, r: Selector, i: nat)
    requires i <= |t|
  {
    && InStep(t, rules, fake, r) && SameReserved(s, fake)
    && (forall k | 0 <= k < i :: BitsDone(t, s, fake, k) && ArgsDone(t, s, r, k))
    && (forall k | i <= k < |t| :: t[k].id !in r.args)
  }

  lemma OneMore(t: seq<Command>, s: Selector, rules0: seq<Rule>, fake0: Selector, r0: Selector, i: nat,
                rules: seq<Rule>, fake: Selector, r: Selector)
    requires WellFormed(t) && i < |t| && Printed(t, s, rules0, fake0, r0, i)
    requires InStep(t, rules, fake, r) && BitsDone(t, s, fake, i) && ArgsDone(t, s, r, i)
    requires forall id | id !in CommandIds(t[i]) :: id in fake.bits <==> id in fake0.bits
    requires forall id | id !in CommandIds(t[i]) :: ArgsOf(r, id) == ArgsOf(r0, id)
    requires Good(t, r)
    ensures Printed(t, s, rules, fake, r, i + 1)
  {
    hide InStep;
    ReservedIsNoCommand(t);
    assert RESERVED_BIT !in CommandIds(t[i]);
    forall k | 0 <= k < |t| && k != i
      ensures CommandIds(t[k]) !! CommandIds(t[i]) && t[k].id !in CommandIds(t[i])
    {
      assert t[k].id in CommandIds(t[k]);
    }
    forall k | 0 <= k < i ensures BitsDone(t, s, fake, k) && ArgsDone(t, s, r, k) {
      assert BitsDone(t, s, fake0, k) && ArgsDone(t, s, r0, k);
      forall id | id in CommandIds(t[k]) ensures id in fake.bits <==> id in s.bits {
        assert id !in CommandIds(t[i]);
      }
    }
    forall k | i < k < |t| ensures t[k].id !in r.args {
      assert ArgsOf(r, t[k].id) == ArgsOf(r0, t[k].id) == [];
    }
  }

  lemma FinishedBits(t: seq<Command>, s: Selector, rules: seq<Rule>, fake: Selector, r: Selector)
    requires Good(t, s) && Printed(t, s, rules, fake, r, |t|)
    ensures r.bits == s.bits && fake.bits == s.bits
  {
    hide GoodArgs, ArgsDone, Replay;
    forall id: nat ensures id in fake.bits <==> id in s.bits {
      if HasId(t, id) {
        var k :| 0 <= k < |t| && id in CommandIds(t[k]);
        assert BitsDone(t, s, fake, k);
      }
    }
  }

  lemma SubHasNoArgs(t: seq<Command>, s: Selector, i: nat, j: nat)
    requires WellFormed(t) && Good(t, s) && i < |t| && j < |t[i].subs|
    ensures t[i].subs[j].id !in s.args
  {
    var id := t[i].subs[j].id;
    assert WellFormedCommand(t[i]) && id in SubIds(t[i].subs) && id in CommandIds(t[i]);
    forall k | 0 <= k < |t| ensures t[k].id != id {
      assert t[k].id in CommandIds(t[k]);
    }
    assert !Plain(t, id);
  }

  /** Two good selectors with the same bitmap, and the same first arguments where they matter, answer alike. */
  lemma SameAnswers(t: seq<Command>, s: Selector, r: Selector, ref: Ref, noAuth: bool, argv: seq<string>)
    requires WellFormed(t) && Good(t, s) && Good(t, r) && s.bits == r.bits && ValidRef(t, ref)
    requires forall k | 0 <= k < |t| :: ArgsDone(t, s, r, k)
    ensures Allowed(t, r, ref, noAuth, argv) == Allowed(t, s, ref, noAuth, argv)
  {
    hide Listed, HasId, Plain, SameName;
    assert WellFormedCommand(t[ref.i]) && IdOf(t, ref) in CommandIds(t[ref.i]);
    match ref
    case Top(i) => assert ArgsDone(t, s, r, i);
    case SubOf(i, j) =>
      SubHasNoArgs(t, s, i, j);
      SubHasNoArgs(t, r, i, j);
  }

  ghost predicate AnswerAlike(t: seq<Command>, s: Selector, r: Selector) {
    forall ref, noAuth, argv | ValidRef(t, ref) ::
      Allowed(t, r, ref, noAuth, argv) == Allowed(t, s, ref, noAuth, argv)
  }

  /** `ACLDescribeSelectorCommandRules`. The shadow bitmap ends equal to the selector's, so the panic
      is out of reach, and the printed rules rebuild the selector's answers from nothing. */
  method Describe(t: seq<Command>, s: Selector) returns (rules: seq<Rule>, fake: Selector)
    requires WellFormed(t) && Good(t, s)
    ensures fake.bits == s.bits
    ensures Replay(t, EMPTY, rules).Some?
    ensures Replay(t, EMPTY, rules).value.bits == s.bits
    ensures AnswerAlike(t, s, Replay(t, EMPTY, rules).value)
    ensures AllEmitted(t, s, rules) && |rules| > 0
    ensures forall k | 0 <= k < |t| :: ArgsDone(t, s, Replay(t, EMPTY, rules).value, k)
  {
    hide WellFormed, Good, InStep, Allowed, BitsDone, ArgsDone, AllEmitted;
    rules, fake := PrintCategories(t, s);
    ghost var r := fake;
    for i := 0 to |t|
      invariant Printed(t, s, rules, fake, r, i) && AllEmitted(t, s, rules) && |rules| > 0
    {
      ghost var rules0, fake0, r0 := rules, fake, r;
      rules, fake, r := PrintCommand(t, s, i, rules, fake, r);
      InStepIs(t, rules, fake, r);
      OneMore(t, s, rules0, fake0, r0, i, rules, fake, r);
    }
    FinishedBits(t, s, rules, fake, r);
    InStepIs(t, rules, fake, r);
    forall ref, noAuth, argv | ValidRef(t, ref)
      ensures Allowed(t, r, ref, noAuth, argv) == Allowed(t, s, ref, noAuth, argv)
    {
      SameAnswers(t, s, r, ref, noAuth, argv);
    }
  }

  lemma InStepIs(t: seq<Command>, rules: seq<Rule>, fake: Selector, r: Selector)
    requires WellFormed(t) && InStep(t, rules, fake, r)
    ensures Replay(t, EMPTY, rules) == Some(r) && Good(t, r)
  {
    ReachableIsGood(t, rules);
  }

  // ------------------------------------------------------------------ the selector in place

  lemma GrantTwice(s: Selector, a: set<nat>, b: set<nat>, x: set<nat>, y: set<nat>, value: bool)
    ensures Forget(Grant(Forget(Grant(s, a, value), x), b, value), y) == Forget(Grant(s, a + b, value), x + y)
  {
    var l, r := Forget(Grant(Forget(Grant(s, a, value), x), b, value), y), Forget(Grant(s, a + b, value), x + y);
    assert l.bits == r.bits;
    assert l.args == r.args;
  }

  /** A selector whose fields the rules update. */
  class LiveSelector {
    var all: bool
    var bits: set<nat>
    var args: map<nat, seq<string>>

    ghost function View(): Selector
      reads this
    {
      Selector(all, bits, args)
    }

    constructor ()
      ensures View() == EMPTY
    {
      all, bits, args := false, {}, map[];
    }

    /** `ACLSetSelectorCommandBit` */
    method SetCommandBit(id: nat, value: bool)
      modifies this
      ensures View() == if id < BITS then Grant(old(View()), {id}, value) else old(View())
    {
      if id >= BITS { return; }
      if value {
        bits := bits + {id};
      } else {
        bits := bits - {id};
        all := false;
      }
    }

    /** `ACLChangeSelectorPerm` */
    method ChangePerm(t: seq<Command>, r: Ref, allow: bool)
      requires WellFormed(t) && ValidRef(t, r)
      modifies this
      ensures View() == WithPerm(t, old(View()), r, allow)
    {
      assert WellFormedCommand(t[r.i]);
      hide WellFormed, SameName;
      ghost var s0 := View();
      var id := match r case Top(i) => t[i].id case SubOf(i, j) => t[i].subs[j].id;
      assert id in CommandIds(t[r.i]);
      SetCommandBit(id, allow);
      args := args - {id};
      assert View() == Forget(Grant(s0, {id}, allow), {id});
      match r
      case SubOf(_, _) =>
      case Top(i) =>
        var subs := t[i].subs;
        for j := 0 to |subs|
          invariant View() == Forget(Grant(s0, {id} + SubIds(subs[..j]), allow), {id})
        {
          assert subs[j].id in CommandIds(t[i]);
          assert SubIds(subs[..j + 1]) == SubIds(subs[..j]) + {subs[j].id};
          ghost var s1 := View();
          SetCommandBit(subs[j].id, allow);
          GrantTwice(s0, {id} + SubIds(subs[..j]), {subs[j].id}, {id}, {}, allow);
          assert {id} + SubIds(subs[..j]) + {subs[j].id} == {id} + SubIds(subs[..j + 1]);
          assert View() == Forget(Grant(s1, {subs[j].id}, allow), {});
          assert {id} + {} == {id};
        }
        assert subs[..|subs|] == subs;
    }

    /** `ACLSetSelectorCommandBitsForCategory` */
    method SetCategory(t: seq<Command>, c: nat, value: bool)
      requires WellFormed(t)
      modifies this
      ensures View() == WithCategory(t, old(View()), c, value)
    {
      hide WellFormed, SubIds, Reached, Tagged;
      ghost var s0 := View();
      ghost var reached, tagged: set<nat> := {}, {};
      assert View() == Forget(Grant(s0, {}, value), {});
      for i := 0 to |t|
        invariant reached == ReachedIn(t[..i], c) && tagged == TaggedIn(t[..i], c)
        invariant View() == Forget(Grant(s0, reached, value), tagged)
      {
        assert t[..i + 1][..i] == t[..i];
        if t[i].isModule {
          ModuleUntouched(t[i], c);
          continue;
        }
        SetCommandCategory(t, i, c, value);
        GrantTwice(s0, reached, Reached(t[i], c), tagged, Tagged(t[i], c), value);
        reached, tagged := reached + Reached(t[i], c), tagged + Tagged(t[i], c);
      }
      assert t[..|t|] == t;
    }

    /** One turn of the category loop: the command itself, then its subcommands. */
    method SetCommandCategory(t: seq<Command>, i: nat, c: nat, value: bool)
      requires WellFormed(t) && i < |t| && !t[i].isModule
      modifies this
      ensures View() == Forget(Grant(old(View()), Reached(t[i], c), value), Tagged(t[i], c))
    {
      hide WellFormed, Grant, Forget;
      ghost var s0 := View();
      ghost var reached, tagged: set<nat> := {}, {};
      NoGrant(s0, value);
      if c in t[i].categories {
        ChangePerm(t, Top(i), value);
        reached, tagged := CommandIds(t[i]), {t[i].id};
      }
      ghost var reached0, tagged0 := reached, tagged;
      var subs := t[i].subs;
      for j := 0 to |subs|
        invariant reached == reached0 + TaggedSubs(subs[..j], c) && tagged == tagged0 + TaggedSubs(subs[..j], c)
        invariant View() == Forget(Grant(s0, reached, value), tagged)
      {
        TaggedSubsGrow(subs, j, c);
        if !subs[j].isModule && c in subs[j].categories {
          GrantTwice(s0, reached, {subs[j].id}, tagged, {subs[j].id}, value);
          ChangePerm(t, SubOf(i, j), value);
          reached, tagged := reached + {subs[j].id}, tagged + {subs[j].id};
        }
      }
      assert subs[..|subs|] == subs;
      assert TaggedSubs(subs, c) <= SubIds(subs);
      assert reached == Reached(t[i], c) && tagged == Tagged(t[i], c);
    }

    /** `ACLAddAllowedFirstArg` */
    method AddFirstArg(id: nat, arg: string)
      modifies this
      ensures View() == AddArg(old(View()), id, arg)
    {
      hide SameName;
      var list := if id in args then args[id] else [];
      for items := 0 to |list|
        invariant forall k | 0 <= k < items :: !SameName(list[k], arg)
        invariant View() == old(View())
      {
        if SameName(list[items], arg) { return; }
      }
      args := args[id := list + [arg]];
    }

    /** `ACLSetSelector` */
    method Set(t: seq<Command>, rule: Rule) returns (ok: bool)
      requires WellFormed(t)
      modifies this
      ensures ok == Apply(t, old(View()), rule).Some?
      ensures View() == if ok then Apply(t, old(View()), rule).value else old(View())
    {
      hide WellFormed, WithCategory, AddArg, Lookup;
      ok := true;
      match rule
      case Everything(allow) =>
        bits := if allow then EveryBit() else {};
        all, args := allow, map[];
      case Category(allow, c) =>
        if c >= CATEGORIES { return false; }
        SetCategory(t, c, allow);
      case Name(false, path) =>
        var r := Lookup(t, path);
        if r.None? { return false; }
        ChangePerm(t, r.value, false);
      case Name(true, path) =>
        if |path| <= 1 {
          var r := Lookup(t, path);
          if r.None? { return false; }
          ChangePerm(t, r.value, true);
          return;
        }
        var cmd := Lookup(t, path[..|path| - 1]);
        if cmd.None? || cmd.value.SubOf? || path[|path| - 1] == "" { return false; }
        if |t[cmd.value.i].subs| > 0 {
          var r := Lookup(t, path);
          if r.None? { return false; }
          ChangePerm(t, r.value, true);
        } else {
          AddFirstArg(t[cmd.value.i].id, path[|path| - 1]);
        }
    }

    /** `ACLSelectorCheckCmd`, command part. */
    method Check(t: seq<Command>, r: Ref, noAuth: bool, argv: seq<string>) returns (allowed: bool)
      requires WellFormed(t) && Good(t, View()) && ValidRef(t, r)
      ensures allowed == Allowed(t, View(), r, noAuth, argv)
    {
      hide SameName;
      if all || noAuth || IdOf(t, r) in bits { return true; }
      if r.SubOf? { SubHasNoArgs(t, View(), r.i, r.j); }
      hide WellFormed, Good;
      if |argv| < 2 || IdOf(t, r) !in args { return false; }
      var list := args[IdOf(t, r)];
      for subid := 0 to |list|
        invariant forall k | 0 <= k < subid :: !SameName(list[k], argv[1])
      {
        if SameName(list[subid], argv[1]) { return true; }
      }
      return false;
    }
  }

  lemma NoGrant(s: Selector, value: bool)
    ensures Forget(Grant(s, {}, value), {}) == s
  {
  }

  lemma ModuleUntouched(cmd: Command, c: nat)
    requires cmd.isModule
    ensures Reached(cmd, c) == {} && Tagged(cmd, c) == {}
  {
  }

  function TaggedSubs(subs: seq<Sub>, c: nat): set<nat> {
    set s | s in subs && !s.isModule && c in s.categories :: s.id
  }

  lemma TaggedSubsGrow(subs: seq<Sub>, j: nat, c: nat)
    requires j < |subs|
    ensures TaggedSubs(subs[..j + 1], c) ==
            TaggedSubs(subs[..j], c) + if !subs[j].isModule && c in subs[j].categories then {subs[j].id} else {}
  {
    assert subs[..j + 1] == subs[..j] + [subs[j]];
  }

  // ------------------------------------------------------------------ command ids

  /** The ids handed out by `ACLGetCommandID`. */
  class CommandIdTable {
    var ids: map<string, nat>
    var next: nat

    /** Distinct names have distinct ids, and the reserved bit is nobody's. */
    ghost predicate Valid()
      reads this
    {
      && next != RESERVED_BIT
      && (forall n | n in ids :: ids[n] < next && ids[n] != RESERVED_BIT)
      && (forall m, n | m in ids && n in ids && m != n :: ids[m] != ids[n])
    }

    constructor ()
      ensures Valid() && ids == map[]
    {
      ids, next := map[], 0;
    }

    method GetId(name: string) returns (id: nat)
      requires Valid()
      modifies this
      ensures Valid() && Fold(name) in ids && ids[Fold(name)] == id && id != RESERVED_BIT
      ensures forall n | n in old(ids) :: n in ids && ids[n] == old(ids)[n]
      ensures ids.Keys == old(ids).Keys + {Fold(name)}
      ensures Fold(name) in old(ids) ==> next == old(next)
      ensures Fold(name) !in old(ids) ==> id == old(next) && next == if id + 1 == 1023 then 1024 else id + 1
    {
      var lower := Fold(name);
      if lower in ids { return ids[lower]; }
      id := next;
      ids := ids[lower := next];
      next := next + 1;
      if next == RESERVED_BIT { next := next + 1; }
    }
  }
}
