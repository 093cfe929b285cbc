/**
 The command rules of a user as text (acl.c): how the printer writes them on a line of the ACL file, and what loading
 the file gives back. The user has the root selector only.
 */
module AclText {
  import opened Acl
  import opened Options

  // ------------------------------------------------------------------ splitting

  /** One character before a text already split. */
  function Lead(c: char, sep: char, parts: seq<string>): (r: seq<string>)
    requires |parts| >= 1
    ensures |r| >= 1
  {
    if c == sep then [""] + parts else [[c] + parts[0]] + parts[1..]
  }

  /** `sdssplitlen` at one character. */
  function Split(s: string, sep: char): (parts: seq<string>)
    ensures |parts| >= 1
  {
    if |s| == 0 then [""] else Lead(s[0], sep, Split(s[1..], sep))
  }

  lemma LeadConcat(c: char, sep: char, a: seq<string>, b: seq<string>)
    requires |a| >= 1
    ensures Lead(c, sep, a + b) == Lead(c, sep, a) + b
  {
    assert (a + b)[1..] == a[1..] + b;
  }

  function Join(parts: seq<string>, sep: char): string
    requires |parts| >= 1
  {
    if |parts| == 1 then parts[0] else parts[0] + [sep] + Join(parts[1..], sep)
  }

  /** A separator between two texts separates their parts. */
  lemma {:induction false} SplitAtSep(a: string, b: string, sep: char)
    ensures Split(a + [sep] + b, sep) == Split(a, sep) + Split(b, sep)
  {
    var s := a + [sep] + b;
    if |a| == 0 {
      assert s[1..] == b;
    } else {
      hide Lead;
      SplitAtSep(a[1..], b, sep);
      assert s[1..] == a[1..] + [sep] + b;
      LeadConcat(a[0], sep, Split(a[1..], sep), Split(b, sep));
    }
  }

  lemma {:induction false} SplitOne(s: string, sep: char)
    ensures Split(s, sep) == [s] <==> sep !in s
    ensures sep in s ==> |Split(s, sep)| >= 2
    ensures forall p | p in Split(s, sep) :: sep !in p
  {
    if |s| > 0 {
      SplitOne(s[1..], sep);
      assert s == [s[0]] + s[1..];
      var rest := Split(s[1..], sep);
      assert rest == [rest[0]] + rest[1..];
    }
  }

  /** The parts hold nothing but what the text holds, and the last part ends the text. */
  lemma {:induction false} SplitParts(s: string, sep: char)
    ensures forall p, c | p in Split(s, sep) && c in p :: c in s
    ensures var last := Split(s, sep)[|Split(s, sep)| - 1]; last != "" ==> s != "" && last[|last| - 1] == s[|s| - 1]
  {
    if |s| > 0 {
      SplitParts(s[1..], sep);
      assert s == [s[0]] + s[1..];
      LeadParts(s[0], sep, Split(s[1..], sep));
    }
  }

  lemma LeadParts(c: char, sep: char, parts: seq<string>)
    requires |parts| >= 1
    ensures forall p, x | p in Lead(c, sep, parts) && x in p :: x == c || exists q | q in parts :: x in q
    ensures var last, before := Lead(c, sep, parts)[|Lead(c, sep, parts)| - 1], parts[|parts| - 1];
      last == before || (last == [c] + before && c != sep)
  {
    forall p, x | p in Lead(c, sep, parts) && x in p ensures x == c || exists q | q in parts :: x in q {
      if p !in parts && p != "" { assert p == [c] + parts[0] && parts[0] in parts; }
    }
  }

  ghost predicate FreeOf(parts: seq<string>, sep: char) { forall p | p in parts :: sep !in p }

  /** Joined parts split back into themselves if and only if none holds the separator. */
  lemma {:induction false} SplitJoined(parts: seq<string>, sep: char)
    requires |parts| >= 1
    ensures Split(Join(parts, sep), sep) == parts <==> FreeOf(parts, sep)
    ensures |Split(Join(parts, sep), sep)| >= |parts|
    ensures |Split(Join(parts, sep), sep)| == |parts| <==> FreeOf(parts, sep)
    decreases |parts|
  {
    hide Split;
    SplitOne(parts[0], sep);
    assert parts == [parts[0]] + parts[1..];
    if |parts| == 1 {
      assert parts == [parts[0]];
    } else {
      SplitJoined(parts[1..], sep);
      SplitAtSep(parts[0], Join(parts[1..], sep), sep);
      assert FreeOf(parts, sep) <==> sep !in parts[0] && FreeOf(parts[1..], sep);
    }
  }

  // ------------------------------------------------------------------ trimming

  /** `sdstrim` */
  function Trim(s: string, cs: set<char>): string { TrimEnd(TrimStart(s, cs), cs) }

  function TrimStart(s: string, cs: set<char>): string { if |s| > 0 && s[0] in cs then TrimStart(s[1..], cs) else s }

  function TrimEnd(s: string, cs: set<char>): string {
    if |s| > 0 && s[|s| - 1] in cs then TrimEnd(s[..|s| - 1], cs) else s
  }

  lemma {:induction false} StartTrimmed(s: string, cs: set<char>)
    ensures forall c | c in TrimStart(s, cs) :: c in s
  {
    if |s| > 0 {
      StartTrimmed(s[1..], cs);
      assert s == [s[0]] + s[1..];
    }
  }

  lemma {:induction false} EndTrimmed(s: string, cs: set<char>)
    ensures var r := TrimEnd(s, cs); r <= s && (r != "" ==> r[|r| - 1] !in cs)
    ensures |s| > 0 && s[0] !in cs ==> TrimEnd(s, cs) != ""
  {
    if |s| > 0 && s[|s| - 1] in cs { EndTrimmed(s[..|s| - 1], cs); }
  }

  /** Trimming leaves nothing new, and no trimmed character at the end. */
  lemma Trimmed(s: string, cs: set<char>)
    ensures var r := Trim(s, cs); (forall c | c in r :: c in s) && (r != "" ==> r[|r| - 1] !in cs)
    ensures |s| > 0 && s[0] !in cs ==> Trim(s, cs) != "" && Trim(s, cs)[0] == s[0]
  {
    hide TrimEnd;
    StartTrimmed(s, cs);
    EndTrimmed(TrimStart(s, cs), cs);
  }

  lemma NothingToTrim(s: string, cs: set<char>)
    requires |s| > 0 && s[0] !in cs && s[|s| - 1] !in cs
    ensures Trim(s, cs) == s
  {
  }

  // ------------------------------------------------------------------ the category table

  const CATEGORY_NAMES: seq<string> := ["keyspace", "read", "write", "set", "sortedset", "list", "hash", "string",
    "bitmap", "hyperloglog", "geo", "stream", "pubsub", "admin", "fast", "slow", "blocking", "dangerous", "connection",
    "transaction", "scripting"]

  function FindCategory(name: string, n: nat): (r: Option<nat>)
    requires n <= CATEGORIES
    ensures r.Some? ==> r.value < n && SameName(CATEGORY_NAMES[r.value], name)
    ensures r.None? ==> forall c | 0 <= c < n :: !SameName(CATEGORY_NAMES[c], name)
  {
    if n == 0 then None else if SameName(CATEGORY_NAMES[n - 1], name) then Some(n - 1) else FindCategory(name, n - 1)
  }

  /** Length, first and last letter tell the categories apart. */
  function Mark(s: string): int { if |s| == 0 then 0 else |s| * 65536 + s[0] as int * 256 + s[|s| - 1] as int }

  predicate LowerCase(s: string) { forall i | 0 <= i < |s| :: 'a' <= s[i] <= 'z' }

  lemma LowerSame(a: string, b: string)
    requires LowerCase(a) && LowerCase(b) && SameName(a, b)
    ensures a == b
  {
    assert |Fold(a)| == |a| && |Fold(b)| == |b|;
    forall i | 0 <= i < |a| ensures a[i] == b[i] { assert Fold(a)[i] == a[i] && Fold(b)[i] == b[i]; }
  }

  lemma CategoriesAreLower(c: nat)
    requires c < CATEGORIES
    ensures LowerCase(CATEGORY_NAMES[c])
  {
  }

  lemma CategoryIsNotAll(c: nat)
    requires c < CATEGORIES
    ensures CATEGORY_NAMES[c] != "all"
  {
    MarkAt(c);
    hide CATEGORY_NAMES;
    assert Mark("all") == 3 * 65536 + 97 * 256 + 108;
  }

  function MarkOf(c: nat): int {
    if c == 0 then 8 * 65536 + 107 * 256 + 101 else if c == 1 then 4 * 65536 + 114 * 256 + 100
    else if c == 2 then 5 * 65536 + 119 * 256 + 101 else if c == 3 then 3 * 65536 + 115 * 256 + 116
    else if c == 4 then 9 * 65536 + 115 * 256 + 116 else if c == 5 then 4 * 65536 + 108 * 256 + 116
    else if c == 6 then 4 * 65536 + 104 * 256 + 104 else if c == 7 then 6 * 65536 + 115 * 256 + 103
    else if c == 8 then 6 * 65536 + 98 * 256 + 112 else if c == 9 then 11 * 65536 + 104 * 256 + 103
    else if c == 10 then 3 * 65536 + 103 * 256 + 111 else if c == 11 then 6 * 65536 + 115 * 256 + 109
    else if c == 12 then 6 * 65536 + 112 * 256 + 98 else if c == 13 then 5 * 65536 + 97 * 256 + 110
    else if c == 14 then 4 * 65536 + 102 * 256 + 116 else if c == 15 then 4 * 65536 + 115 * 256 + 119
    else if c == 16 then 8 * 65536 + 98 * 256 + 103 else if c == 17 then 9 * 65536 + 100 * 256 + 115
    else if c == 18 then 10 * 65536 + 99 * 256 + 110 else if c == 19 then 11 * 65536 + 116 * 256 + 110
    else 9 * 65536 + 115 * 256 + 103
  }

  lemma MarkAt(c: nat)
    requires c < CATEGORIES
    ensures Mark(CATEGORY_NAMES[c]) == MarkOf(c)
  {
  }

  lemma MarksDiffer(a: nat, b: nat)
    requires a < CATEGORIES && b < CATEGORIES && MarkOf(a) == MarkOf(b)
    ensures a == b
  {
  }

  lemma FindsCategory(c: nat)
    requires c < CATEGORIES
    ensures FindCategory(CATEGORY_NAMES[c], CATEGORIES) == Some(c)
  {
    hide MarkOf, Mark, LowerCase, SameName, FindCategory;
    var r := FindCategory(CATEGORY_NAMES[c], CATEGORIES);
    SelfSame(CATEGORY_NAMES[c]);
    CategoriesAreLower(c);
    assert r.Some?;
    CategoriesAreLower(r.value);
    LowerSame(CATEGORY_NAMES[r.value], CATEGORY_NAMES[c]);
    MarkAt(c);
    MarkAt(r.value);
    MarksDiffer(c, r.value);
  }

  lemma SelfSame(s: string)
    ensures SameName(s, s)
  {
  }

  // ------------------------------------------------------------------ one rule

  function Sign(allow: bool): char { if allow then '+' else '-' }

  /** What the loader takes off a line, and off a word of it. */
  const LINE_BLANKS: set<char> := {' ', '\t', '\r', '\n'}
  const WORD_BLANKS: set<char> := {'\t', '\r', '\n'}

  predicate NoBlank(word: string) { forall c | c in word :: c !in LINE_BLANKS }

  predicate PlainName(name: string) { name != "" && name[0] != '@' && NoBlank(name) && '|' !in name }

  /** The parts of a name; only the first argument of a command, the last part, may be odd. */
  ghost predicate PathSplit(path: seq<string>) { |path| >= 1 && PlainName(path[0]) && FreeOf(path, '|') }

  ghost predicate Writable(rule: Rule) {
    match rule
    case Everything(_) => true
    case Category(_, c) => c < CATEGORIES
    case Name(_, path) => PathSplit(path)
  }

  function RuleText(rule: Rule): string
    requires Writable(rule)
  {
    match rule
    case Everything(allow) => [Sign(allow)] + "@all"
    case Category(allow, c) => [Sign(allow)] + "@" + CATEGORY_NAMES[c]
    case Name(allow, path) => [Sign(allow)] + Join(path, '|')
  }

  /** A word as a command rule, as `ACLSetUser` and `ACLSetSelector` tell them apart; None is any other word. */
  function ParseRule(word: string): Option<Rule> {
    if SameName(word, "allcommands") then Some(Everything(true))
    else if SameName(word, "nocommands") || SameName(word, "reset") then Some(Everything(false))
    else if |word| == 0 || (word[0] != '+' && word[0] != '-') then None
    else if |word| == 1 || word[1] != '@' then Some(Name(word[0] == '+', Split(word[1..], '|')))
    else if SameName(word[2..], "all") then Some(Everything(word[0] == '+'))
    else
      match FindCategory(word[2..], CATEGORIES)
      case None => None
      case Some(c) => Some(Category(word[0] == '+', c))
  }

  /** No name of a command or subcommand holds a character that the rules give a meaning to. */
  ghost predicate PlainTable(t: seq<Command>) {
    forall i | 0 <= i < |t| :: PlainName(t[i].name) && forall j | 0 <= j < |t[i].subs| :: PlainName(t[i].subs[j].name)
  }

  /** The listed arguments came from rules split at '|'. */
  ghost predicate ArgsSplit(s: Selector) { forall id, a | id in s.args && a in s.args[id] :: '|' !in a }

  lemma NotAWord(word: string)
    requires |word| > 0 && (word[0] == '+' || word[0] == '-' || word[0] == '(')
    ensures !SameName(word, "allcommands") && !SameName(word, "nocommands") && !SameName(word, "reset")
  {
    assert Fold(word)[0] == word[0];
    assert Fold("allcommands")[0] == 'a' && Fold("nocommands")[0] == 'n' && Fold("reset")[0] == 'r';
  }

  lemma AllIsAll()
    ensures SameName("all", "all") && LowerCase("all")
  {
  }

  /** The signs, the mark of a category and the words for everything mean what the documentation says. */
  lemma WordsMean(name: string, c: nat)
    requires name != "" && name[0] != '@' && '|' !in name && c < CATEGORIES
    ensures ParseRule("+" + name) == Some(Name(true, [name])) && ParseRule("-" + name) == Some(Name(false, [name]))
    ensures ParseRule("+@" + CATEGORY_NAMES[c]) == Some(Category(true, c)) && ParseRule("-@" + CATEGORY_NAMES[c]) == Some(Category(false, c))
    ensures ParseRule("+@all") == Some(Everything(true)) && ParseRule("-@all") == Some(Everything(false))
    ensures ParseRule("allcommands") == Some(Everything(true)) && ParseRule("nocommands") == Some(Everything(false))
  {
    hide SameName, Split, FindCategory, LowerCase;
    NotAWord("+" + name);
    NotAWord("-" + name);
    NotAWord("+@" + CATEGORY_NAMES[c]);
    NotAWord("-@" + CATEGORY_NAMES[c]);
    NotAWord("+@all");
    NotAWord("-@all");
    AllIsAll();
    assert ("+" + name)[1..] == name && ("-" + name)[1..] == name;
    assert ("+@" + CATEGORY_NAMES[c])[2..] == CATEGORY_NAMES[c] && ("-@" + CATEGORY_NAMES[c])[2..] == CATEGORY_NAMES[c];
    assert "+@all"[2..] == "all" && "-@all"[2..] == "all";
    SplitNone(name);
    CategoriesAreLower(c);
    CategoryIsNotAll(c);
    FindsCategory(c);
    if SameName(CATEGORY_NAMES[c], "all") { LowerSame(CATEGORY_NAMES[c], "all"); }
    SelfSame("allcommands");
    SelfSame("nocommands");
    NoIsNotAll();
  }

  lemma SplitNone(name: string)
    requires '|' !in name
    ensures Split(name, '|') == [name]
  {
    hide Split;
    SplitJoined([name], '|');
  }

  lemma NoIsNotAll()
    ensures !SameName("nocommands", "allcommands")
  {
    assert Fold("nocommands")[0] == 'n' && Fold("allcommands")[0] == 'a';
  }

  /** One printed rule is read back as itself. */
  lemma RuleReads(rule: Rule)
    requires Writable(rule)
    ensures ParseRule(RuleText(rule)) == Some(rule)
  {
    hide SameName, Split, Join, FindCategory, LowerCase;
    var text := RuleText(rule);
    NotAWord(text);
    AllIsAll();
    match rule {
      case Everything(allow) => assert text[2..] == "all";
      case Category(allow, c) =>
        assert text[2..] == CATEGORY_NAMES[c];
        CategoriesAreLower(c);
        CategoryIsNotAll(c);
        FindsCategory(c);
        if SameName(CATEGORY_NAMES[c], "all") { LowerSame(CATEGORY_NAMES[c], "all"); }
      case Name(allow, path) =>
        assert text[1..] == Join(path, '|');
        JoinStarts(path);
        SplitJoined(path, '|');
    }
  }

  lemma JoinStarts(path: seq<string>)
    requires |path| >= 1 && path[0] != ""
    ensures |Join(path, '|')| > 0 && Join(path, '|')[0] == path[0][0]
  {
  }

  // ------------------------------------------------------------------ the line

  ghost predicate AllWritable(rules: seq<Rule>) { forall k | 0 <= k < |rules| :: Writable(rules[k]) }

  function Words(rules: seq<Rule>): seq<string>
    requires AllWritable(rules)
  {
    seq(|rules|, k requires 0 <= k < |rules| => RuleText(rules[k]))
  }

  /** `ACLMergeSelectorArguments`: from a word that opens a parenthesis to one that closes it is one word. */
  function Merged(words: seq<string>, open: Option<string>): Option<seq<string>> {
    if |words| == 0 then (if open.Some? then None else Some([]))
    else
      var w := words[0];
      if Opens(w) && !Closes(w) then Merged(words[1..], Some(w))
      else if open.Some? then
        var sel := open.value + " " + w;
        if Closes(w) then More(sel, Merged(words[1..], None)) else Merged(words[1..], Some(sel))
      else More(w, Merged(words[1..], None))
  }

  predicate Opens(w: string) { |w| > 0 && w[0] == '(' }
  predicate Closes(w: string) { |w| > 0 && w[|w| - 1] == ')' }

  function More(w: string, rest: Option<seq<string>>): Option<seq<string>> {
    if rest.Some? then Some([w] + rest.value) else None
  }

  /**
   `ACLSetUser` on one word, as far as the commands of the root selector go. `other` says which of the remaining words
   (flags, passwords, patterns, further selectors) are accepted.
   */
  function ReadOp(other: string -> bool, op: string): Option<seq<Rule>> {
    if op == "" then Some([])
    else
      match ParseRule(op)
      case Some(rule) => Some([rule])
      case None => if other(op) then Some([]) else None
  }

  function ReadOps(other: string -> bool, ops: seq<string>): Option<seq<Rule>> {
    if |ops| == 0 then Some([])
    else
      match (ReadOps(other, ops[..|ops| - 1]), ReadOp(other, Trim(ops[|ops| - 1], WORD_BLANKS)))
      case (Some(rules), Some(more)) => Some(rules + more)
      case _ => None
  }

  /** One line of the file in `ACLLoadFromFile`. */
  function ReadLine(other: string -> bool, line: string): Option<seq<Rule>> {
    var words := Split(Trim(line, LINE_BLANKS), ' ');
    if |words| < 2 || words[0] != "user" then None
    else
      match Merged(words[2..], None)
      case None => None
      case Some(ops) => ReadOps(other, ops)
  }

  /** What is saved for a user is its text and a line end; the loader takes the file line by line. */
  function ReadSaved(other: string -> bool, text: string): Option<seq<Rule>> { ReadLine(other, Split(text + "\n", '\n')[0]) }

  /** What a user loaded from the file may run. */
  function LoadSaved(t: seq<Command>, other: string -> bool, text: string): Option<Selector> {
    match ReadSaved(other, text)
    case None => None
    case Some(rules) => Replay(t, EMPTY, rules)
  }

  // ------------------------------------------------------------------ what can be read at all

  /** No blank, no line end, and no tab or carriage return at the end. */
  ghost predicate Clean(a: string) { ' ' !in a && '\n' !in a && (a != "" ==> a[|a| - 1] != '\t' && a[|a| - 1] != '\r') }

  ghost predicate CleanRule(rule: Rule) { rule.Name? ==> |rule.path| >= 1 && Clean(rule.path[|rule.path| - 1]) }

  ghost predicate AllClean(rules: seq<Rule>) { forall k | 0 <= k < |rules| :: CleanRule(rules[k]) }

  lemma ParsedIsClean(op: string)
    requires Clean(op) || Opens(op)
    ensures ParseRule(op).Some? ==> CleanRule(ParseRule(op).value)
  {
    hide SameName, FindCategory, Split;
    if Opens(op) {
      NotAWord(op);
    } else if |op| > 0 {
      SplitParts(op[1..], '|');
    }
  }

  ghost predicate Usable(op: string) { (' ' !in op && '\n' !in op) || Opens(op) }

  lemma TrimsClean(op: string)
    requires Usable(op)
    ensures Clean(Trim(op, WORD_BLANKS)) || Opens(Trim(op, WORD_BLANKS))
  {
    hide Trim;
    Trimmed(op, WORD_BLANKS);
  }

  lemma {:induction false} OpsAreClean(other: string -> bool, ops: seq<string>)
    requires (forall op | op in ops :: Usable(op)) && ReadOps(other, ops).Some?
    ensures AllClean(ReadOps(other, ops).value)
  {
    hide ParseRule, Trim, Clean, CleanRule, Usable;
    if |ops| > 0 {
      OpsAreClean(other, ops[..|ops| - 1]);
      TrimsClean(ops[|ops| - 1]);
      ParsedIsClean(Trim(ops[|ops| - 1], WORD_BLANKS));
    }
  }

  lemma {:induction false} MergedIsUsable(words: seq<string>, open: Option<string>)
    requires (forall w | w in words :: Usable(w)) && (open.Some? ==> Opens(open.value)) && Merged(words, open).Some?
    ensures forall op | op in Merged(words, open).value :: Usable(op)
  {
    if |words| > 0 {
      var w := words[0];
      if Opens(w) && !Closes(w) {
        MergedIsUsable(words[1..], Some(w));
      } else if open.Some? && !Closes(w) {
        MergedIsUsable(words[1..], Some(open.value + " " + w));
      } else {
        MergedIsUsable(words[1..], None);
      }
    }
  }

  /** Whatever the text, the rules read from it have clean last parts. */
  lemma ReadIsClean(other: string -> bool, text: string)
    ensures ReadSaved(other, text).Some? ==> AllClean(ReadSaved(other, text).value)
  {
    hide Split, Trim, Merged, ReadOps, AllClean;
    var line := Split(text + "\n", '\n')[0];
    SplitOne(text + "\n", '\n');
    Trimmed(line, LINE_BLANKS);
    var trimmed := Trim(line, LINE_BLANKS);
    SplitOne(trimmed, ' ');
    SplitParts(trimmed, ' ');
    var words := Split(trimmed, ' ');
    assert forall w | w in words :: Usable(w);
    if |words| >= 2 && Merged(words[2..], None).Some? {
      MergedIsUsable(words[2..], None);
      if ReadOps(other, Merged(words[2..], None).value).Some? { OpsAreClean(other, Merged(words[2..], None).value); }
    }
  }

  // ------------------------------------------------------------------ what is read back

  /** The words before the rules: "user", the name, and flags, passwords and patterns without blanks. */
  ghost predicate GoodHead(other: string -> bool, head: seq<string>) {
    && |head| >= 2 && head[0] == "user" && head[1] != "" && NoBlank(head[1])
    && forall k | 2 <= k < |head| :: FlagWord(other, head[k])
  }

  ghost predicate FlagWord(other: string -> bool, w: string) {
    w != "" && NoBlank(w) && !Opens(w) && ParseRule(w) == None && other(w)
  }

  /** A word that the loader keeps as it is. */
  ghost predicate Kept(w: string) {
    w != "" && ' ' !in w && '\n' !in w && w[0] !in LINE_BLANKS && w[|w| - 1] !in LINE_BLANKS
  }

  lemma {:induction false} NothingMerged(words: seq<string>)
    requires forall w | w in words :: !Opens(w)
    ensures Merged(words, None) == Some(words)
  {
    if |words| > 0 {
      assert words[0] in words;
      NothingMerged(words[1..]);
      assert words == [words[0]] + words[1..];
    }
  }

  lemma {:induction false} FlagsRead(other: string -> bool, flags: seq<string>)
    requires forall k | 0 <= k < |flags| :: FlagWord(other, flags[k])
    ensures ReadOps(other, flags) == Some([])
  {
    hide ParseRule, Trim;
    if |flags| > 0 {
      var w := flags[|flags| - 1];
      FlagsRead(other, flags[..|flags| - 1]);
      assert w[0] in w && w[|w| - 1] in w;
      NothingToTrim(w, WORD_BLANKS);
      var none: seq<Rule> := [];
      assert ReadOp(other, w) == Some(none) && none + none == none;
    }
  }

  lemma {:induction false} OpsRead(other: string -> bool, flags: seq<string>, rules: seq<Rule>)
    requires AllWritable(rules) && (forall w | w in Words(rules) :: Kept(w))
    requires forall k | 0 <= k < |flags| :: FlagWord(other, flags[k])
    ensures ReadOps(other, flags + Words(rules)) == Some(rules)
    decreases |rules|
  {
    hide ParseRule, RuleText, Writable, Trim, FlagWord;
    var ops := flags + Words(rules);
    if |rules| == 0 {
      FlagsRead(other, flags);
      assert ops == flags;
    } else {
      var k := |rules| - 1;
      assert Words(rules)[k] in Words(rules) && Words(rules)[k] == RuleText(rules[k]);
      assert Words(rules[..k]) == Words(rules)[..k];
      OpsRead(other, flags, rules[..k]);
      assert ops[..|ops| - 1] == flags + Words(rules[..k]);
      NothingToTrim(Words(rules)[k], WORD_BLANKS);
      RuleReads(rules[k]);
      assert rules[..k] + [rules[k]] == rules;
    }
  }

  lemma {:induction false} JoinEnds(parts: seq<string>, sep: char)
    requires |parts| >= 1 && parts[0] != "" && parts[|parts| - 1] != ""
    ensures var s := Join(parts, sep); var last := parts[|parts| - 1];
      s != "" && s[0] == parts[0][0] && s[|s| - 1] == last[|last| - 1]
    decreases |parts|
  {
    if |parts| == 2 {
      assert Join(parts[1..], sep) == parts[1];
    } else if |parts| > 2 {
      JoinTail(parts[1..], sep);
    }
  }

  lemma {:induction false} JoinTail(parts: seq<string>, sep: char)
    requires |parts| >= 1 && parts[|parts| - 1] != ""
    ensures var s := Join(parts, sep); var last := parts[|parts| - 1]; s != "" && s[|s| - 1] == last[|last| - 1]
    decreases |parts|
  {
    if |parts| > 1 { JoinTail(parts[1..], sep); }
  }

  /** A line whose words are all kept is split into them. */
  lemma LineSplits(words: seq<string>)
    requires |words| >= 1 && forall w | w in words :: Kept(w)
    ensures var text := Join(words, ' ');
      Split(text + "\n", '\n')[0] == text && Trim(text, LINE_BLANKS) == text && Split(text, ' ') == words
  {
    hide Split, Join, Trim;
    var text := Join(words, ' ');
    assert words[0] in words && words[|words| - 1] in words;
    JoinEnds(words, ' ');
    NothingToTrim(text, LINE_BLANKS);
    SplitJoined(words, ' ');
    JoinHas(words, ' ', '\n');
    SplitOne(text, '\n');
    SplitAtSep(text, "", '\n');
    assert text + "\n" == text + ['\n'] + "";
  }

  lemma HeadKept(other: string -> bool, head: seq<string>)
    requires GoodHead(other, head)
    ensures forall w | w in head :: Kept(w)
    ensures forall w | w in head[2..] :: !Opens(w)
  {
    hide ParseRule;
    forall w | w in head ensures Kept(w) {
      var k :| 0 <= k < |head| && head[k] == w;
      assert w[0] in w && w[|w| - 1] in w;
      if k == 0 { UserKept(); }
    }
  }

  lemma UserKept()
    ensures Kept("user")
  {
  }

  lemma RulesNeverOpen(rules: seq<Rule>)
    requires AllWritable(rules)
    ensures forall w | w in Words(rules) :: w != "" && !Opens(w) && w[0] !in LINE_BLANKS
  {
    forall w | w in Words(rules) ensures w != "" && !Opens(w) && w[0] !in LINE_BLANKS {
      var k :| 0 <= k < |rules| && Words(rules)[k] == w;
      assert w == RuleText(rules[k]);
    }
  }

  /** A saved line whose words are kept is read back as the rules printed on it. */
  lemma LineReads(other: string -> bool, head: seq<string>, rules: seq<Rule>)
    requires GoodHead(other, head) && AllWritable(rules) && |rules| >= 1
    requires forall w | w in Words(rules) :: Kept(w)
    ensures ReadSaved(other, Join(head + Words(rules), ' ')) == Some(rules)
  {
    hide Split, Join, Trim, Merged, ReadOps, ParseRule, Words, Writable, Kept, Opens;
    var words := head + Words(rules);
    HeadKept(other, head);
    LineSplits(words);
    RulesNeverOpen(rules);
    assert words[2..] == head[2..] + Words(rules);
    NothingMerged(words[2..]);
    OpsRead(other, head[2..], rules);
  }

  // ------------------------------------------------------------------ the printed line of a selector

  /** Every first argument that the printer writes is clean. */
  ghost predicate TidyArgs(t: seq<Command>, s: Selector) {
    forall i, a | 0 <= i < |t| && t[i].id !in s.bits && a in ArgsOf(s, t[i].id) :: Clean(a)
  }

  lemma JoinHas(parts: seq<string>, sep: char, c: char)
    requires |parts| >= 1 && c != sep
    ensures c in Join(parts, sep) <==> exists p | p in parts :: c in p
    decreases |parts|
  {
    assert parts == [parts[0]] + parts[1..];
    if |parts| > 1 {
      JoinHas(parts[1..], sep, c);
      var s := parts[0] + [sep] + Join(parts[1..], sep);
      assert c in s <==> c in parts[0] || c in Join(parts[1..], sep);
    } else {
      assert parts == [parts[0]];
    }
  }

  lemma EmittedWritable(t: seq<Command>, s: Selector, rule: Rule)
    requires PlainTable(t) && ArgsSplit(s) && Emitted(t, s, rule)
    ensures Writable(rule)
  {
    if rule.Name? && !NamesCommand(t, rule.path) {
      var i :| 0 <= i < |t| && rule.path[0] == t[i].name && t[i].id !in s.bits && rule.path[1] in ArgsOf(s, t[i].id);
      assert rule.path == [rule.path[0], rule.path[1]];
    }
  }

  lemma AllEmittedWritable(t: seq<Command>, s: Selector, rules: seq<Rule>)
    requires PlainTable(t) && ArgsSplit(s) && AllEmitted(t, s, rules)
    ensures AllWritable(rules)
  {
    hide Emitted, PlainTable, ArgsSplit, Writable;
    forall k | 0 <= k < |rules| ensures Writable(rules[k]) { EmittedWritable(t, s, rules[k]); }
  }

  lemma CategoryKept(allow: bool, c: nat)
    requires c < CATEGORIES
    ensures Kept(RuleText(Category(allow, c)))
  {
    CategoriesAreLower(c);
    CategoryIsThere(c);
  }

  lemma CategoryIsThere(c: nat)
    requires c < CATEGORIES
    ensures CATEGORY_NAMES[c] != ""
  {
  }

  lemma AllKept(allow: bool)
    ensures Kept(RuleText(Everything(allow)))
  {
  }

  lemma NameKept(allow: bool, path: seq<string>)
    requires PathSplit(path) && FreeOf(path, ' ') && FreeOf(path, '\n') && path[|path| - 1] != "" && Clean(path[|path| - 1])
    ensures Kept(RuleText(Name(allow, path)))
  {
    hide Join;
    JoinHas(path, '|', ' ');
    JoinHas(path, '|', '\n');
    JoinTail(path, '|');
    var text, last := Join(path, '|'), path[|path| - 1];
    assert last[|last| - 1] in last;
  }

  /** With tidy arguments every printed word is kept by the loader. */
  lemma TidyIsKept(t: seq<Command>, s: Selector, rule: Rule)
    requires PlainTable(t) && ArgsSplit(s) && NoEmptyArg(s) && Emitted(t, s, rule) && TidyArgs(t, s)
    ensures Writable(rule) && Kept(RuleText(rule))
  {
    hide RuleText, Kept;
    EmittedWritable(t, s, rule);
    match rule {
      case Everything(allow) => AllKept(allow);
      case Category(allow, c) => CategoryKept(allow, c);
      case Name(allow, path) =>
        if NamesCommand(t, path) {
          NamesAreFree(t, path);
        } else {
          ArgIsFree(t, s, path);
        }
        NameKept(allow, path);
    }
  }

  ghost predicate NoEmptyArg(s: Selector) { forall id, a | id in s.args && a in s.args[id] :: a != "" }

  lemma GoodHasNoEmptyArg(t: seq<Command>, s: Selector)
    requires Good(t, s)
    ensures NoEmptyArg(s)
  {
    hide Plain, HasId;
  }

  lemma PlainIsFree(name: string)
    requires PlainName(name)
    ensures ' ' !in name && '\n' !in name && name != "" && Clean(name)
  {
    assert name[|name| - 1] in name;
  }

  lemma NamesAreFree(t: seq<Command>, path: seq<string>)
    requires PlainTable(t) && NamesCommand(t, path)
    ensures FreeOf(path, ' ') && FreeOf(path, '\n') && path[|path| - 1] != "" && Clean(path[|path| - 1])
  {
    hide PlainName, Clean;
    var ref :| ValidRef(t, ref) && path == FullName(t, ref);
    assert PlainName(t[ref.i].name);
    PlainIsFree(t[ref.i].name);
    if ref.SubOf? { PlainIsFree(t[ref.i].subs[ref.j].name); }
  }

  lemma ArgIsFree(t: seq<Command>, s: Selector, path: seq<string>)
    requires PlainTable(t) && NoEmptyArg(s) && TidyArgs(t, s) && NamesArg(t, s, path)
    ensures FreeOf(path, ' ') && FreeOf(path, '\n') && path[|path| - 1] != "" && Clean(path[|path| - 1])
  {
    hide PlainName;
    var i :| 0 <= i < |t| && path[0] == t[i].name && t[i].id !in s.bits && path[1] in ArgsOf(s, t[i].id);
    PlainIsFree(t[i].name);
    assert path == [path[0], path[1]] && Clean(path[1]);
  }

  lemma WordsAreKept(t: seq<Command>, s: Selector, rules: seq<Rule>)
    requires PlainTable(t) && ArgsSplit(s) && NoEmptyArg(s) && AllEmitted(t, s, rules) && TidyArgs(t, s) && AllWritable(rules)
    ensures forall w | w in Words(rules) :: Kept(w)
  {
    hide Emitted, RuleText, Writable, Kept, PlainTable, ArgsSplit, NoEmptyArg, TidyArgs;
    forall w | w in Words(rules) ensures Kept(w) {
      var k :| 0 <= k < |rules| && Words(rules)[k] == w;
      TidyIsKept(t, s, rules[k]);
    }
  }

  /** Replayed rules list an argument only if one of them ends in it. */
  lemma {:induction false} ArgWasNamed(t: seq<Command>, rules: seq<Rule>, id: nat, a: string)
    requires Replay(t, EMPTY, rules).Some? && a in ArgsOf(Replay(t, EMPTY, rules).value, id)
    ensures exists k | 0 <= k < |rules| :: EndsIn(rules[k], a)
  {
    hide Lookup, Listed, WithPerm, WithCategory;
    var k := |rules| - 1;
    var before := Replay(t, EMPTY, rules[..k]).value;
    if a in ArgsOf(before, id) {
      ArgWasNamed(t, rules[..k], id, a);
    } else {
      ArgIsNew(t, before, rules[k], id, a);
    }
  }

  ghost predicate EndsIn(rule: Rule, a: string) { rule.Name? && |rule.path| > 0 && rule.path[|rule.path| - 1] == a }

  lemma ArgIsNew(t: seq<Command>, s: Selector, rule: Rule, id: nat, a: string)
    requires Apply(t, s, rule).Some? && a in ArgsOf(Apply(t, s, rule).value, id) && a !in ArgsOf(s, id)
    ensures EndsIn(rule, a)
  {
    hide Lookup, Listed, ReachedIn, TaggedIn, IdsOf, IdOf;
  }

  lemma ArgIsClean(t: seq<Command>, rules: seq<Rule>, id: nat, a: string)
    requires AllClean(rules) && Replay(t, EMPTY, rules).Some? && a in ArgsOf(Replay(t, EMPTY, rules).value, id)
    ensures Clean(a)
  {
    hide Replay, ArgsOf, Clean;
    ArgWasNamed(t, rules, id, a);
    var k :| 0 <= k < |rules| && EndsIn(rules[k], a);
    assert CleanRule(rules[k]);
  }

  // ------------------------------------------------------------------ an argument that cannot be read changes an answer

  lemma SameIsClean(a: string, b: string)
    requires SameName(a, b) && Clean(a)
    ensures Clean(b)
  {
    assert |Fold(a)| == |a| && |Fold(b)| == |b|;
    forall i | 0 <= i < |b| ensures a[i] == b[i] || (b[i] != ' ' && b[i] != '\n' && b[i] != '\t' && b[i] != '\r') {
      assert Fold(a)[i] == Fold(b)[i];
      FoldedBlank(a, b, i);
    }
    assert forall i | 0 <= i < |a| :: a[i] in a;
  }

  lemma FoldedBlank(a: string, b: string, i: nat)
    requires i < |a| == |b| && Fold(a)[i] == Fold(b)[i]
    ensures a[i] == b[i] || (b[i] != ' ' && b[i] != '\n' && b[i] != '\t' && b[i] != '\r')
  {
  }

  function Longest(list: seq<string>): (n: nat)
    ensures forall a | a in list :: |a| <= n
  {
    if |list| == 0 then 0
    else
      var n := Longest(list[..|list| - 1]);
      if |list[|list| - 1]| > n then |list[|list| - 1]| else n
  }

  /** There is always an argument that a list does not have. */
  lemma Unlisted(list: seq<string>) returns (x: string)
    ensures !Listed(list, x)
  {
    x := seq(Longest(list) + 1, _ => 'x');
    forall i | 0 <= i < |list| ensures !SameName(list[i], x) {
      assert |Fold(list[i])| == |list[i]| && |Fold(x)| == |x| && list[i] in list;
    }
  }

  lemma ListedSelf(list: seq<string>, a: string)
    requires a in list
    ensures Listed(list, a)
  {
    var i :| 0 <= i < |list| && list[i] == a;
    SelfSame(a);
  }

  lemma ListedIsClean(list: seq<string>, a: string)
    requires Listed(list, a) && forall b | b in list :: Clean(b)
    ensures Clean(a)
  {
    hide SameName, Clean;
    var i :| 0 <= i < |list| && SameName(list[i], a);
    SameIsClean(list[i], a);
  }

  /** Whatever selector has clean arguments only, it answers otherwise than one with another argument. */
  lemma UntidyAnswers(t: seq<Command>, s: Selector, r: Selector, i: nat, a: string)
    requires Good(t, s) && i < |t| && t[i].id !in s.bits && t[i].id < BITS && a in ArgsOf(s, t[i].id) && !Clean(a)
    requires forall b | b in ArgsOf(r, t[i].id) :: Clean(b)
    ensures !AnswerAlike(t, s, r)
  {
    hide Listed, Clean, GoodArgs, HasId;
    var id, name := t[i].id, t[i].name;
    var x := Unlisted(ArgsOf(s, id));
    ListedSelf(ArgsOf(s, id), a);
    assert IdOf(t, Top(i)) == id && !s.all;
    assert Allowed(t, s, Top(i), false, [name, a]) && !Allowed(t, s, Top(i), false, [name, x]);
    if Listed(ArgsOf(r, id), a) { ListedIsClean(ArgsOf(r, id), a); }
    assert !(Allowed(t, r, Top(i), false, [name, a]) && !Allowed(t, r, Top(i), false, [name, x]));
  }

  lemma UntidyIsLost(t: seq<Command>, other: string -> bool, s: Selector, text: string)
    requires WellFormed(t) && Good(t, s) && !TidyArgs(t, s)
    ensures LoadSaved(t, other, text).Some? ==> !AnswerAlike(t, s, LoadSaved(t, other, text).value)
  {
    ReadIsClean(other, text);
    var i, a :| 0 <= i < |t| && t[i].id !in s.bits && a in ArgsOf(s, t[i].id) && !Clean(a);
    IdInRange(t, i);
    hide WellFormed, Good, ReadSaved, Replay, AnswerAlike, Clean, ArgsOf, AllClean;
    if LoadSaved(t, other, text).Some? {
      var rules, r := ReadSaved(other, text).value, LoadSaved(t, other, text).value;
      forall b | b in ArgsOf(r, t[i].id) ensures Clean(b) { ArgIsClean(t, rules, t[i].id, b); }
      UntidyAnswers(t, s, r, i, a);
    }
  }

  lemma IdInRange(t: seq<Command>, i: nat)
    requires WellFormed(t) && i < |t|
    ensures t[i].id < RESERVED_BIT
  {
    assert WellFormedCommand(t[i]) && t[i].id in CommandIds(t[i]);
  }

  /** Rules that put an argument there which is not clean are never what is read. */
  lemma UntidyIsNotRead(t: seq<Command>, other: string -> bool, s: Selector, rules: seq<Rule>, text: string)
    requires Replay(t, EMPTY, rules).Some? && !TidyArgs(t, s)
    requires forall k | 0 <= k < |t| :: ArgsDone(t, s, Replay(t, EMPTY, rules).value, k)
    ensures ReadSaved(other, text) != Some(rules)
  {
    ReadIsClean(other, text);
    hide ReadSaved, Replay, Clean, ArgsOf, AllClean;
    var i, a :| 0 <= i < |t| && t[i].id !in s.bits && a in ArgsOf(s, t[i].id) && !Clean(a);
    assert ArgsDone(t, s, Replay(t, EMPTY, rules).value, i);
    if ReadSaved(other, text) == Some(rules) { ArgIsClean(t, rules, t[i].id, a); }
  }

  /** The text of `ACLDescribeSelectorCommandRules`: every rule and a blank, and the last blank cut off. */
  method WriteLine(rules: seq<Rule>) returns (text: string)
    requires AllWritable(rules) && |rules| >= 1
    ensures text == Join(Words(rules), ' ')
  {
    hide RuleText, Writable, Join;
    text := "";
    for k := 0 to |rules|
      invariant k == 0 ==> text == ""
      invariant k > 0 ==> text == Join(Words(rules)[..k], ' ') + " "
    {
      assert Words(rules)[k] == RuleText(rules[k]);
      assert Words(rules)[..k + 1] == Words(rules)[..k] + [Words(rules)[k]];
      JoinMore(Words(rules)[..k], Words(rules)[k], ' ');
      text := text + RuleText(rules[k]) + " ";
    }
    assert Words(rules)[..|rules|] == Words(rules);
    text := text[..|text| - 1];
  }

  lemma {:induction false} JoinMore(parts: seq<string>, last: string, sep: char)
    ensures Join(parts + [last], sep) == if |parts| == 0 then last else Join(parts, sep) + [sep] + last
    decreases |parts|
  {
    var all := parts + [last];
    if |parts| > 0 {
      JoinMore(parts[1..], last, sep);
      assert all[1..] == parts[1..] + [last];
      if |parts| > 1 {
        assert parts[0] + [sep] + (Join(parts[1..], sep) + [sep] + last) == (parts[0] + [sep] + Join(parts[1..], sep)) + [sep] + last;
      }
    }
  }

  lemma {:induction false} JoinTwo(a: seq<string>, b: seq<string>, sep: char)
    requires |a| >= 1 && |b| >= 1
    ensures Join(a + b, sep) == Join(a, sep) + [sep] + Join(b, sep)
    decreases |a|
  {
    var all := a + b;
    JoinFirst(all, sep);
    assert all[0] == a[0];
    if |a| == 1 {
      assert all[1..] == b && Join(a, sep) == a[0];
    } else {
      JoinFirst(a, sep);
      hide Join;
      JoinTwo(a[1..], b, sep);
      assert all[1..] == a[1..] + b;
      JoinAssoc(a[0], Join(a[1..], sep), Join(b, sep), sep);
    }
  }

  lemma JoinFirst(parts: seq<string>, sep: char)
    requires |parts| >= 2
    ensures Join(parts, sep) == parts[0] + [sep] + Join(parts[1..], sep)
  {
  }

  lemma JoinAssoc(a: string, b: string, c: string, sep: char)
    ensures a + [sep] + (b + [sep] + c) == (a + [sep] + b) + [sep] + c
  {
  }

  /**
   Saving and loading a user: the line is read back as the printed rules, and also the loaded user gives the same
   answers, if and only if no printed first argument holds a blank or a line end or ends in a tab or carriage return.
   */
  method DescribeText(t: seq<Command>, s: Selector, ghost other: string -> bool, ghost head: seq<string>)
    returns (text: string, ghost rules: seq<Rule>)
    requires WellFormed(t) && Good(t, s) && PlainTable(t) && ArgsSplit(s) && GoodHead(other, head)
    ensures var line := Join(head, ' ') + " " + text;
      && (ReadSaved(other, line) == Some(rules) <==> TidyArgs(t, s))
      && (LoadSaved(t, other, line).Some? && AnswerAlike(t, s, LoadSaved(t, other, line).value) <==> TidyArgs(t, s))
      && (TidyArgs(t, s) ==> LoadSaved(t, other, line).value.bits == s.bits)
  {
    hide WellFormed, Good, PlainTable, ArgsSplit, Replay, ReadSaved, Join, Words, AnswerAlike, TidyArgs, ArgsDone, AllEmitted, GoodHead,
      NoEmptyArg, Kept;
    HeadIsThere(other, head);
    var printed, fake := Describe(t, s);
    rules := printed;
    AllEmittedWritable(t, s, rules);
    text := WriteLine(printed);
    WordsAreThere(rules);
    JoinTwo(head, Words(rules), ' ');
    ghost var line := Join(head, ' ') + " " + text;
    if TidyArgs(t, s) {
      GoodHasNoEmptyArg(t, s);
      WordsAreKept(t, s, rules);
      LineReads(other, head, rules);
    } else {
      UntidyIsNotRead(t, other, s, rules, line);
      UntidyIsLost(t, other, s, line);
    }
  }

  lemma HeadIsThere(other: string -> bool, head: seq<string>)
    requires GoodHead(other, head)
    ensures |head| >= 2
  {
  }

  lemma WordsAreThere(rules: seq<Rule>)
    requires AllWritable(rules)
    ensures |Words(rules)| == |rules|
  {
  }

  lemma ParsedSplits(word: string)
    ensures ParseRule(word).Some? && ParseRule(word).value.Name? ==> FreeOf(ParseRule(word).value.path, '|')
  {
    hide SameName, FindCategory, Split;
    if |word| > 0 { SplitOne(word[1..], '|'); }
  }

  ghost predicate AllSplit(rules: seq<Rule>) { forall k | 0 <= k < |rules| && rules[k].Name? :: FreeOf(rules[k].path, '|') }

  lemma {:induction false} OpsSplit(other: string -> bool, ops: seq<string>)
    requires ReadOps(other, ops).Some?
    ensures AllSplit(ReadOps(other, ops).value)
  {
    hide ParseRule, Trim, FreeOf;
    if |ops| > 0 {
      OpsSplit(other, ops[..|ops| - 1]);
      ParsedSplits(Trim(ops[|ops| - 1], WORD_BLANKS));
    }
  }

  /** Whatever is set up by rules in text has arguments free of '|'. */
  lemma {:induction false} ReachedIsSplit(t: seq<Command>, rules: seq<Rule>)
    requires AllSplit(rules) && Replay(t, EMPTY, rules).Some?
    ensures ArgsSplit(Replay(t, EMPTY, rules).value)
  {
    hide Apply, ArgsSplit, FreeOf;
    if |rules| == 0 {
      NothingSplit();
    } else {
      var k := |rules| - 1;
      ReachedIsSplit(t, rules[..k]);
      ApplyKeepsSplit(t, Replay(t, EMPTY, rules[..k]).value, rules[k]);
    }
  }

  lemma NothingSplit()
    ensures ArgsSplit(EMPTY)
  {
  }

  lemma ApplyKeepsSplit(t: seq<Command>, s: Selector, rule: Rule)
    requires ArgsSplit(s) && Apply(t, s, rule).Some? && (rule.Name? ==> FreeOf(rule.path, '|'))
    ensures ArgsSplit(Apply(t, s, rule).value)
  {
    hide Apply, FreeOf;
    var s' := Apply(t, s, rule).value;
    forall id, a | id in s'.args && a in s'.args[id] ensures '|' !in a {
      if a !in ArgsOf(s, id) {
        ArgIsNew(t, s, rule, id, a);
        FreePart(rule.path, a);
      }
    }
  }

  lemma FreePart(path: seq<string>, a: string)
    requires FreeOf(path, '|') && a in path
    ensures '|' !in a
  {
  }

  /** SELECT with the first argument "0 1", or "0" and a tab: the rule is accepted, and the argument is not clean. */
  lemma BlankExample(t: seq<Command>, a: string)
    requires t == [Command("select", 0, {}, false, [])] && (a == "0 1" || a == "0\t")
    ensures Apply(t, EMPTY, Name(true, ["select", a])).Some? && !TidyArgs(t, Apply(t, EMPTY, Name(true, ["select", a])).value)
  {
    hide SameName;
    var path := ["select", a];
    SelfSame("select");
    FindOnly(t, "select");
    assert path[..1] == ["select"] && path[1] == a;
    var s := Apply(t, EMPTY, Name(true, path)).value;
    assert s == AddArg(EMPTY, 0, a) && ArgsOf(s, t[0].id) == [a];
    assert !Clean(a) by { if a == "0 1" { assert a[1] == ' '; } else { assert a[|a| - 1] == '\t'; } }
    assert a in ArgsOf(s, t[0].id) && t[0].id !in s.bits;
  }

  /** The loader takes the tab off, so what it reads is the argument "0". */
  lemma TabExample(other: string -> bool)
    ensures ReadOps(other, ["+select|0\t"]) == ReadOps(other, ["+select|0"])
  {
    hide ParseRule;
    var a, b := "+select|0\t", "+select|0";
    assert a[..|a| - 1] == b;
    var none: seq<string> := [];
    assert [a][..0] == none && [b][..0] == none;
    assert TrimEnd(a, WORD_BLANKS) == TrimEnd(a[..|a| - 1], WORD_BLANKS);
    assert Trim(a, WORD_BLANKS) == b && Trim(b, WORD_BLANKS) == b;
  }

  lemma FindOnly(t: seq<Command>, name: string)
    requires |t| == 1 && SameName(t[0].name, name)
    ensures FindCommand(t, name) == Some(0)
  {
  }
}
