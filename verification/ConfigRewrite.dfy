/** CONFIG REWRITE (config.c): editing the old configuration file line by line. */
module ConfigRewrite {
  import opened Options

  const SIGNATURE := "# Generated by CONFIG REWRITE"

  /**
   What a line is: kept as it is, the signature that was added, an old line of an option still to be reused, a line
   written for an option, or an old line blanked at the end.
   */
  datatype Tag = Kept | Signed | Pending(option: string) | Written(option: string) | Blanked(option: string)

  // ------------------------------------------------------------------ lines of one option

  /** The old lines of `o` not yet reused, by number. */
  function PendingOf(tags: seq<Tag>, o: string): seq<nat> {
    if |tags| == 0 then []
    else PendingOf(tags[..|tags| - 1], o) + (if tags[|tags| - 1] == Pending(o) then [|tags| - 1] else [])
  }

  /** The texts written for `o`, from the top of the file. */
  function TextsOf(lines: seq<string>, tags: seq<Tag>, o: string): seq<string>
    requires |lines| == |tags|
  {
    if |tags| == 0 then []
    else
      TextsOf(lines[..|tags| - 1], tags[..|tags| - 1], o) +
      (if tags[|tags| - 1] == Written(o) then [lines[|tags| - 1]] else [])
  }

  /** Lines written for `o` come before its lines still to be reused. */
  ghost predicate InOrder(tags: seq<Tag>, o: string) {
    forall i, j | 0 <= i < j < |tags| :: tags[i] == Pending(o) ==> tags[j] != Written(o)
  }

  lemma {:induction false} PendingIn(tags: seq<Tag>, o: string, k: nat)
    requires k < |PendingOf(tags, o)|
    ensures PendingOf(tags, o)[k] < |tags| && tags[PendingOf(tags, o)[k]] == Pending(o)
  {
    if k < |PendingOf(tags[..|tags| - 1], o)| { PendingIn(tags[..|tags| - 1], o, k); }
  }

  lemma {:induction false} PendingAll(tags: seq<Tag>, o: string, n: nat)
    requires n < |tags| && tags[n] == Pending(o)
    ensures n in PendingOf(tags, o)
  {
    if n < |tags| - 1 { PendingAll(tags[..|tags| - 1], o, n); }
  }

  lemma {:induction false} NonePending(tags: seq<Tag>, o: string)
    requires forall n | 0 <= n < |tags| :: tags[n] != Pending(o)
    ensures PendingOf(tags, o) == []
  {
    if |tags| > 0 { NonePending(tags[..|tags| - 1], o); }
  }

  /** The first pending line of `o` changed into something else. */
  lemma {:induction false} FirstTaken(tags: seq<Tag>, o: string, t: Tag)
    requires |PendingOf(tags, o)| > 0 && t != Pending(o)
    ensures var n := PendingOf(tags, o)[0];
      && n < |tags| && tags[n] == Pending(o)
      && PendingOf(tags[n := t], o) == PendingOf(tags, o)[1..]
  {
    var k := |tags| - 1;
    var front := tags[..k];
    PendingIn(tags, o, 0);
    var n := PendingOf(tags, o)[0];
    if |PendingOf(front, o)| > 0 {
      FirstTaken(front, o, t);
      assert tags[n := t][..k] == front[n := t];
    } else {
      assert n == k;
      assert tags[n := t][..k] == front;
    }
  }

  /** A change of one line that is not pending for `o2`, before or after. */
  lemma {:induction false} OthersPending(tags: seq<Tag>, n: nat, t: Tag, o2: string)
    requires n < |tags| && tags[n] != Pending(o2) && t != Pending(o2)
    ensures PendingOf(tags[n := t], o2) == PendingOf(tags, o2)
  {
    var k := |tags| - 1;
    if n < k {
      OthersPending(tags[..k], n, t, o2);
      assert tags[n := t][..k] == tags[..k][n := t];
    } else {
      assert tags[n := t][..k] == tags[..k];
    }
  }

  lemma {:induction false} OthersTexts(lines: seq<string>, tags: seq<Tag>, n: nat, line: string, t: Tag, o2: string)
    requires |lines| == |tags| && n < |tags| && tags[n] != Written(o2) && t != Written(o2)
    ensures TextsOf(lines[n := line], tags[n := t], o2) == TextsOf(lines, tags, o2)
  {
    var k := |tags| - 1;
    if n < k {
      OthersTexts(lines[..k], tags[..k], n, line, t, o2);
      assert tags[n := t][..k] == tags[..k][n := t] && lines[n := line][..k] == lines[..k][n := line];
    } else {
      assert tags[n := t][..k] == tags[..k] && lines[n := line][..k] == lines[..k];
    }
  }

  /** Writing over a line behind everything written for `o` adds its text at the end. */
  lemma {:induction false} WrittenLast(lines: seq<string>, tags: seq<Tag>, n: nat, line: string, o: string)
    requires |lines| == |tags| && n < |tags| && tags[n] == Pending(o)
    requires forall j | n < j < |tags| :: tags[j] != Written(o)
    ensures TextsOf(lines[n := line], tags[n := Written(o)], o) == TextsOf(lines, tags, o) + [line]
  {
    var k := |tags| - 1;
    if n < k {
      WrittenLast(lines[..k], tags[..k], n, line, o);
      assert tags[n := Written(o)][..k] == tags[..k][n := Written(o)] && lines[n := line][..k] == lines[..k][n := line];
    } else {
      assert tags[n := Written(o)][..k] == tags[..k] && lines[n := line][..k] == lines[..k];
    }
  }

  lemma Appended(lines: seq<string>, tags: seq<Tag>, line: string, t: Tag, o: string)
    requires |lines| == |tags|
    ensures PendingOf(tags + [t], o) == PendingOf(tags, o) + (if t == Pending(o) then [|tags|] else [])
    ensures TextsOf(lines + [line], tags + [t], o) == TextsOf(lines, tags, o) + (if t == Written(o) then [line] else [])
  {
    assert (tags + [t])[..|tags|] == tags && (lines + [line])[..|lines|] == lines;
  }

  // ------------------------------------------------------------------ the invariant

  /** The map holds exactly the pending lines, and no empty list. */
  ghost predicate Indexed(tags: seq<Tag>, index: map<string, seq<nat>>) {
    forall o: string :: if o in index then index[o] == PendingOf(tags, o) && |index[o]| > 0 else PendingOf(tags, o) == []
  }

  /** The written lines are exactly the emitted ones, in emission order. */
  ghost predicate Recorded(lines: seq<string>, tags: seq<Tag>, emitted: map<string, seq<string>>)
    requires |lines| == |tags|
  {
    forall o: string :: TextsOf(lines, tags, o) == Emitted(emitted, o)
  }

  function Emitted(emitted: map<string, seq<string>>, o: string): seq<string> { if o in emitted then emitted[o] else [] }

  ghost predicate AllInOrder(tags: seq<Tag>) { forall o: string :: InOrder(tags, o) }

  /** Lines that are kept, or that belong to an option, still hold what the old file held. */
  ghost predicate Untouched(lines: seq<string>, tags: seq<Tag>, original: seq<string>)
    requires |lines| == |tags|
  {
    && |original| <= |lines|
    && (forall i | 0 <= i < |original| :: (tags[i].Kept? || tags[i].Pending?) ==> lines[i] == original[i])
    && (forall i | 0 <= i < |original| :: !tags[i].Signed?)
    && (forall i | |original| <= i < |lines| :: tags[i].Signed? || tags[i].Written?)
  }

  /** The signature was added at most once, and only while it was needed. */
  ghost predicate SignedOnce(lines: seq<string>, tags: seq<Tag>, needs: bool)
    requires |lines| == |tags|
  {
    && (forall i | 0 <= i < |tags| :: tags[i].Signed? ==> !needs && lines[i] == SIGNATURE)
    && (forall i, j | 0 <= i < j < |tags| :: tags[i].Signed? ==> !tags[j].Signed?)
  }

  /** The map as `rewriteConfigRemoveOrphaned` leaves it: lists may be empty. */
  ghost predicate Mapped(tags: seq<Tag>, index: map<string, seq<nat>>) {
    forall o: string :: PendingOf(tags, o) == if o in index then index[o] else []
  }

  lemma TakeFirst(lines: seq<string>, tags: seq<Tag>, index: map<string, seq<nat>>, o: string, t: Tag, line: string)
    requires |lines| == |tags| && Mapped(tags, index) && o in index && |index[o]| > 0 && !t.Pending?
    ensures var n := index[o][0];
      && n < |tags| && tags[n] == Pending(o) && Mapped(tags[n := t], index[o := index[o][1..]])
      && forall o2: string :: t != Written(o2) ==> TextsOf(lines[n := line], tags[n := t], o2) == TextsOf(lines, tags, o2)
  {
    hide PendingOf, TextsOf;
    FirstTaken(tags, o, t);
    var n := index[o][0];
    var tags', index' := tags[n := t], index[o := index[o][1..]];
    forall o2: string ensures PendingOf(tags', o2) == if o2 in index' then index'[o2] else [] {
      if o2 != o { OthersPending(tags, n, t, o2); }
    }
    forall o2: string | t != Written(o2) ensures TextsOf(lines[n := line], tags[n := t], o2) == TextsOf(lines, tags, o2) {
      OthersTexts(lines, tags, n, line, t, o2);
    }
  }

  lemma DropEmpty(tags: seq<Tag>, index: map<string, seq<nat>>, o: string)
    requires Mapped(tags, index) && o in index && index[o] == []
    ensures Mapped(tags, index - {o})
  {
    hide PendingOf;
  }

  lemma IndexedIsMapped(tags: seq<Tag>, index: map<string, seq<nat>>)
    ensures Indexed(tags, index) <==> Mapped(tags, index) && forall o | o in index :: |index[o]| > 0
  {
    hide PendingOf;
    if Indexed(tags, index) {
      forall o: string ensures PendingOf(tags, o) == if o in index then index[o] else [] {}
    }
    if Mapped(tags, index) && forall o | o in index :: |index[o]| > 0 {
      forall o: string ensures if o in index then index[o] == PendingOf(tags, o) && |index[o]| > 0 else PendingOf(tags, o) == [] {
        assert PendingOf(tags, o) == if o in index then index[o] else [];
      }
    }
  }

  /** The whole invariant of a rewrite in progress. */
  ghost predicate Tidy(lines: seq<string>, tags: seq<Tag>, index: map<string, seq<nat>>, emitted: map<string, seq<string>>,
                       original: seq<string>, needs: bool)
  {
    && |lines| == |tags| && Indexed(tags, index) && Recorded(lines, tags, emitted) && AllInOrder(tags)
    && Untouched(lines, tags, original) && SignedOnce(lines, tags, needs) && forall i | 0 <= i < |tags| :: !tags[i].Blanked?
  }

  /** The map without the first line of `o`. */
  function Consumed(index: map<string, seq<nat>>, o: string): map<string, seq<nat>>
    requires o in index && |index[o]| > 0
  {
    if |index[o]| == 1 then index - {o} else index[o := index[o][1..]]
  }

  lemma TidyReuse(lines: seq<string>, tags: seq<Tag>, index: map<string, seq<nat>>, emitted: map<string, seq<string>>,
                  original: seq<string>, needs: bool, o: string, line: string)
    requires Tidy(lines, tags, index, emitted, original, needs) && o in index
    ensures |lines| == |tags| && |index[o]| > 0 && index[o][0] < |tags|
    ensures var n := index[o][0];
      Tidy(lines[n := line], tags[n := Written(o)], Consumed(index, o), emitted[o := Emitted(emitted, o) + [line]], original, needs)
  {
    hide Recorded, Untouched, SignedOnce, AllInOrder, Mapped, PendingOf, TextsOf;
    IndexedIsMapped(tags, index);
    Reuse(lines, tags, index, emitted, original, needs, o, line);
    var n := index[o][0];
    var tags' := tags[n := Written(o)];
    if |index[o]| == 1 {
      var index1 := index[o := index[o][1..]];
      DropEmpty(tags', index1, o);
      assert index1 - {o} == index - {o};
    }
    IndexedIsMapped(tags', Consumed(index, o));
  }

  lemma TidyExtend(lines: seq<string>, tags: seq<Tag>, index: map<string, seq<nat>>, emitted: map<string, seq<string>>,
                   original: seq<string>, needs: bool, line: string, t: Tag)
    requires Tidy(lines, tags, index, emitted, original, needs)
    requires (t.Written? && t.option !in index) || (t == Signed && needs && line == SIGNATURE)
    ensures Tidy(lines + [line], tags + [t], index,
                 if t.Written? then emitted[t.option := Emitted(emitted, t.option) + [line]] else emitted, original, needs && t != Signed)
  {
    hide Indexed, Recorded, Untouched, SignedOnce, AllInOrder;
    Extend(lines, tags, index, emitted, original, needs, line, t);
  }

  /** Orphan removal in progress: pending lines of `tags0` are blanked one by one. */
  ghost predicate Sweeping(lines: seq<string>, tags: seq<Tag>, index: map<string, seq<nat>>, emitted: map<string, seq<string>>,
                           original: seq<string>, needs: bool, lines0: seq<string>, tags0: seq<Tag>, rewritten: set<string>)
  {
    && |lines| == |tags| == |tags0| == |lines0| && Mapped(tags, index) && Recorded(lines, tags, emitted)
    && Untouched(lines, tags, original) && SignedOnce(lines, tags, needs)
    && (forall i | 0 <= i < |tags| :: tags[i].Blanked? ==> lines[i] == "")
    && (forall i | 0 <= i < |tags| :: tags[i] == tags0[i] || (tags0[i].Pending? && tags0[i].option in rewritten && tags[i] == Blanked(tags0[i].option)))
    && forall i | 0 <= i < |tags| :: tags[i] == tags0[i] ==> lines[i] == lines0[i]
  }

  lemma SweepStarts(lines: seq<string>, tags: seq<Tag>, index: map<string, seq<nat>>, emitted: map<string, seq<string>>,
                    original: seq<string>, needs: bool, rewritten: set<string>)
    requires Tidy(lines, tags, index, emitted, original, needs)
    ensures |lines| == |tags| && Sweeping(lines, tags, index, emitted, original, needs, lines, tags, rewritten)
  {
    hide Recorded, Untouched, SignedOnce, AllInOrder, Mapped;
    IndexedIsMapped(tags, index);
  }

  lemma SweepOne(lines: seq<string>, tags: seq<Tag>, index: map<string, seq<nat>>, emitted: map<string, seq<string>>,
                 original: seq<string>, needs: bool, lines0: seq<string>, tags0: seq<Tag>, rewritten: set<string>, o: string)
    requires Sweeping(lines, tags, index, emitted, original, needs, lines0, tags0, rewritten) && o in index && |index[o]| > 0 && o in rewritten
    ensures |lines| == |tags| && index[o][0] < |tags|
    ensures var n := index[o][0];
      Sweeping(lines[n := ""], tags[n := Blanked(o)], index[o := index[o][1..]], emitted, original, needs, lines0, tags0, rewritten)
  {
    hide Recorded, Untouched, SignedOnce, Mapped;
    BlankOne(lines, tags, index, emitted, original, needs, o);
  }

  // ------------------------------------------------------------------ the rewrite state

  /** How the reader sees a trimmed line: a comment or blank, one it cannot use, or a line of an option. */
  datatype Kind = Remark | Unusable | OptionLine(name: string)

  function Loaded(line: string, kind: Kind): string { if kind.Unusable? then "# ??? " + line else line }

  function TagOf(kind: Kind): Tag { if kind.OptionLine? then Pending(kind.name) else Kept }

  /** One of the first `n` lines is a comment that is the signature. */
  predicate SignatureIn(raw: seq<string>, kind: string -> Kind, n: nat)
    requires n <= |raw|
  {
    n > 0 && (SignatureIn(raw, kind, n - 1) || (kind(raw[n - 1]).Remark? && raw[n - 1] == SIGNATURE))
  }

  class RewriteState {
    var lines: seq<string>
    var optionToLine: map<string, seq<nat>>
    var rewritten: set<string>
    var needsSignature: bool
    var forceWrite: bool
    ghost var tags: seq<Tag>
    ghost var emitted: map<string, seq<string>>
    ghost var original: seq<string>

    ghost predicate Valid()
      reads this
    {
      Tidy(lines, tags, optionToLine, emitted, original, needsSignature) && forall o | o in emitted :: o in rewritten
    }

    /** `rewriteConfigCreateState` */
    constructor (forceWrite: bool)
      ensures Valid() && lines == [] && optionToLine == map[] && rewritten == {} && needsSignature
      ensures tags == [] && emitted == map[] && original == [] && this.forceWrite == forceWrite
    {
      lines, optionToLine, rewritten, needsSignature := [], map[], {}, true;
      this.forceWrite := forceWrite;
      tags, emitted, original := [], map[], [];
    }

    /** `rewriteConfigAddLineNumberToOption` */
    method AddLineNumberToOption(option: string, linenum: nat)
      modifies `optionToLine
      ensures optionToLine == old(optionToLine)[option := (if option in old(optionToLine) then old(optionToLine)[option] else []) + [linenum]]
    {
      var l := if option in optionToLine then optionToLine[option] else [];
      optionToLine := optionToLine[option := l + [linenum]];
    }

    /** `rewriteConfigMarkAsProcessed` */
    method MarkAsProcessed(option: string)
      requires Valid()
      modifies `rewritten
      ensures Valid() && rewritten == old(rewritten) + {option}
    {
      hide Tidy;
      rewritten := rewritten + {option};
    }

    /** The populating loop of `rewriteConfigReadOldFile`, on trimmed lines. */
    method ReadOldFile(raw: seq<string>, kind: string -> Kind)
      requires Valid() && lines == [] && optionToLine == map[] && emitted == map[] && needsSignature
      modifies this
      ensures Valid() && rewritten == old(rewritten) && emitted == map[] && forceWrite == old(forceWrite)
      ensures |lines| == |raw| && original == lines
      ensures forall i | 0 <= i < |raw| :: lines[i] == if kind(raw[i]).Unusable? then "# ??? " + raw[i] else raw[i]
      ensures |tags| == |raw| && forall i | 0 <= i < |raw| :: tags[i] == if kind(raw[i]).OptionLine? then Pending(kind(raw[i]).name) else Kept
      ensures needsSignature <==> !SignatureIn(raw, kind, |raw|)
    {
      hide Indexed, Recorded, Untouched, SignedOnce, AllInOrder, Loaded, TagOf, LoadedUpTo;
      NothingLoaded(raw, kind);
      tags, original := [], [];
      for i := 0 to |raw|
        invariant |lines| == |tags| == i && original == lines
        invariant LoadedUpTo(raw, kind, i, lines, tags)
        invariant Indexed(tags, optionToLine) && Recorded(lines, tags, map[])
        invariant emitted == map[] && rewritten == old(rewritten) && forceWrite == old(forceWrite)
        invariant needsSignature <==> !SignatureIn(raw, kind, i)
      {
        var k := kind(raw[i]);
        if k.Remark? && needsSignature && raw[i] == SIGNATURE { needsSignature := false; }
        ghost var index0 := optionToLine;
        TagKinds(k);
        if k.OptionLine? { AddLineNumberToOption(k.name, i); }
        IndexGrows(tags, index0, TagOf(k), optionToLine);
        NothingRecorded(lines, tags, Loaded(raw[i], k), TagOf(k));
        LoadedOneMore(raw, kind, i, lines, tags);
        lines := lines + [Loaded(raw[i], k)];
        tags := tags + [TagOf(k)];
        original := lines;
      }
      AllLoaded(raw, kind, lines, tags);
      FreshIsTidy(lines, tags, needsSignature);
    }

    /** `rewriteConfigAppendLine` */
    method AppendLine(line: string)
      modifies `lines
      ensures lines == old(lines) + [line]
    {
      lines := lines + [line];
    }

    /**
     `rewriteConfigRewriteLine`: the line takes the place of the first old line of the option, or goes to the end, or
     is skipped; in each case the written lines of every option stay its emitted lines in emission order.
     */
    method RewriteLine(option: string, line: string, force: bool)
      requires Valid()
      modifies this
      ensures Valid() && rewritten == old(rewritten) + {option} && original == old(original) && forceWrite == old(forceWrite)
      ensures
        var skipped := option !in old(optionToLine) && !force && !forceWrite;
        emitted == if skipped then old(emitted) else old(emitted)[option := Emitted(old(emitted), option) + [line]]
      ensures option in old(optionToLine) ==>
        var l := old(optionToLine)[option];
        && |l| > 0 && l[0] < |old(lines)| && lines == old(lines)[l[0] := line] && needsSignature == old(needsSignature)
        && optionToLine == if |l| == 1 then old(optionToLine) - {option} else old(optionToLine)[option := l[1..]]
      ensures option !in old(optionToLine) && (force || forceWrite) ==>
        lines == old(lines) + (if old(needsSignature) then [SIGNATURE] else []) + [line] && !needsSignature && optionToLine == old(optionToLine)
      ensures option !in old(optionToLine) && !force && !forceWrite ==>
        lines == old(lines) && needsSignature == old(needsSignature) && optionToLine == old(optionToLine)
    {
      hide Tidy;
      MarkAsProcessed(option);
      if option !in optionToLine && !force && !forceWrite { return; }
      if option in optionToLine {
        TidyReuse(lines, tags, optionToLine, emitted, original, needsSignature, option, line);
        var l := optionToLine[option];
        var linenum := l[0];
        optionToLine := if |l| == 1 then optionToLine - {option} else optionToLine[option := l[1..]];
        lines := lines[linenum := line];
        tags := tags[linenum := Written(option)];
      } else {
        if needsSignature {
          TidyExtend(lines, tags, optionToLine, emitted, original, needsSignature, SIGNATURE, Signed);
          AppendLine(SIGNATURE);
          needsSignature := false;
          tags := tags + [Signed];
        }
        TidyExtend(lines, tags, optionToLine, emitted, original, needsSignature, line, Written(option));
        AppendLine(line);
        tags := tags + [Written(option)];
      }
      emitted := emitted[option := Emitted(emitted, option) + [line]];
    }

    /**
     `rewriteConfigRemoveOrphaned`: of the options processed, only the emitted lines are left; everything else still
     reads as in the old file.
     */
    method RemoveOrphaned()
      requires Valid()
      modifies `lines, `optionToLine, `tags
      ensures |lines| == |tags| == |old(lines)| && Recorded(lines, tags, emitted) && Untouched(lines, tags, original)
      ensures SignedOnce(lines, tags, needsSignature)
      ensures forall i | 0 <= i < |tags| :: tags[i].Pending? ==> tags[i].option !in rewritten
      ensures forall i | 0 <= i < |tags| :: tags[i].Blanked? ==> lines[i] == ""
      ensures |old(tags)| == |tags|
      ensures forall i | 0 <= i < |tags| :: tags[i] == old(tags)[i] || (old(tags)[i].Pending? && old(tags)[i].option in rewritten && tags[i] == Blanked(old(tags)[i].option))
      ensures forall i | 0 <= i < |tags| :: tags[i] == old(tags)[i] ==> lines[i] == old(lines)[i]
    {
      hide Tidy, Sweeping;
      SweepStarts(lines, tags, optionToLine, emitted, original, needsSignature, rewritten);
      ghost var lines0, tags0 := lines, tags;
      var todo := optionToLine.Keys;
      while todo != {}
        invariant Sweeping(lines, tags, optionToLine, emitted, original, needsSignature, lines0, tags0, rewritten) && todo <= optionToLine.Keys
        invariant forall o | o in optionToLine && o in rewritten && o !in todo :: optionToLine[o] == []
        decreases |todo|
      {
        var option :| option in todo;
        todo := todo - {option};
        if option !in rewritten { continue; }
        while |optionToLine[option]| > 0
          invariant option in optionToLine && todo <= optionToLine.Keys
          invariant Sweeping(lines, tags, optionToLine, emitted, original, needsSignature, lines0, tags0, rewritten)
          invariant forall o | o in optionToLine && o in rewritten && o !in todo && o != option :: optionToLine[o] == []
          decreases |optionToLine[option]|
        {
          var l := optionToLine[option];
          SweepOne(lines, tags, optionToLine, emitted, original, needsSignature, lines0, tags0, rewritten, option);
          lines := lines[l[0] := ""];
          tags := tags[l[0] := Blanked(option)];
          optionToLine := optionToLine[option := l[1..]];
        }
      }
      Swept(lines, tags, optionToLine, emitted, original, needsSignature, lines0, tags0, rewritten);
    }

    /** `rewriteConfigGetContentFromState` */
    method GetContent() returns (content: string)
      ensures content == Joined(Squeezed(lines))
    {
      content := "";
      var wasEmpty := false;
      for j := 0 to |lines|
        invariant content == Joined(Squeezed(lines[..j]))
        invariant wasEmpty <==> j > 0 && lines[j - 1] == ""
      {
        SqueezedGrows(lines, j);
        if |lines[j]| == 0 {
          if wasEmpty { continue; }
          wasEmpty := true;
        } else {
          wasEmpty := false;
        }
        JoinedGrows(Squeezed(lines[..j]), lines[j]);
        content := content + lines[j];
        content := content + "\n";
      }
      assert lines[..|lines|] == lines;
    }
  }

  // ------------------------------------------------------------------ a whole rewrite

  /** What CONFIG REWRITE does with an option: a line for it, or only the note that it was dealt with. */
  datatype Call = Rewrite(option: string, line: string, force: bool) | Mark(option: string)

  /** The numbers of the lines of option `o` in the old file. */
  function OldLines(raw: seq<string>, kind: string -> Kind, o: string): seq<nat> {
    if |raw| == 0 then []
    else OldLines(raw[..|raw| - 1], kind, o) + (if kind(raw[|raw| - 1]) == OptionLine(o) then [|raw| - 1] else [])
  }

  /** The lines asked for `o`, in order. */
  function Given(calls: seq<Call>, o: string): seq<string> {
    if |calls| == 0 then []
    else
      var c := calls[|calls| - 1];
      Given(calls[..|calls| - 1], o) + if c.Rewrite? && c.option == o then [c.line] else []
  }

  predicate Processed(calls: seq<Call>, o: string) { exists i | 0 <= i < |calls| :: calls[i].option == o }

  /** The lines that found no old line of their option and are written all the same. */
  function Added(raw: seq<string>, kind: string -> Kind, forceWrite: bool, calls: seq<Call>): seq<string> {
    if |calls| == 0 then []
    else
      var front, c := calls[..|calls| - 1], calls[|calls| - 1];
      Added(raw, kind, forceWrite, front) +
      if c.Rewrite? && |Given(front, c.option)| >= |OldLines(raw, kind, c.option)| && (c.force || forceWrite) then [c.line] else []
  }

  lemma {:induction false} OldLineAt(raw: seq<string>, kind: string -> Kind, o: string, k: nat)
    requires k < |OldLines(raw, kind, o)|
    ensures var n := OldLines(raw, kind, o)[k]; n < |raw| && kind(raw[n]) == OptionLine(o) && |OldLines(raw[..n], kind, o)| == k
  {
    var front := raw[..|raw| - 1];
    if k < |OldLines(front, kind, o)| {
      OldLineAt(front, kind, o, k);
      var n := OldLines(front, kind, o)[k];
      assert front[..n] == raw[..n];
    }
  }

  lemma {:induction false} OldLineOf(raw: seq<string>, kind: string -> Kind, o: string, i: nat)
    requires i < |raw| && kind(raw[i]) == OptionLine(o)
    ensures var k := |OldLines(raw[..i], kind, o)|; k < |OldLines(raw, kind, o)| && OldLines(raw, kind, o)[k] == i
  {
    var front := raw[..|raw| - 1];
    if i < |raw| - 1 {
      OldLineOf(front, kind, o, i);
      assert front[..i] == raw[..i];
    }
  }

  lemma {:induction false} OldLinesPending(raw: seq<string>, kind: string -> Kind, tags: seq<Tag>, o: string)
    requires |tags| == |raw| && forall i | 0 <= i < |raw| :: tags[i] == if kind(raw[i]).OptionLine? then Pending(kind(raw[i]).name) else Kept
    ensures PendingOf(tags, o) == OldLines(raw, kind, o)
  {
    if |raw| > 0 { OldLinesPending(raw[..|raw| - 1], kind, tags[..|tags| - 1], o); }
  }

  /** What line `i` of the old file has become: the k-th line of an option is the k-th line given for it. */
  ghost predicate Stands(raw: seq<string>, kind: string -> Kind, calls: seq<Call>, lines: seq<string>, i: nat)
    requires i < |raw| <= |lines|
  {
    match kind(raw[i])
    case Remark => lines[i] == raw[i]
    case Unusable => lines[i] == "# ??? " + raw[i]
    case OptionLine(o) => var k := |OldLines(raw[..i], kind, o)|; lines[i] == if k < |Given(calls, o)| then Given(calls, o)[k] else raw[i]
  }

  /** The part of the state that belongs to one option. */
  ghost predicate Left(raw: seq<string>, kind: string -> Kind, calls: seq<Call>, index: map<string, seq<nat>>, o: string) {
    var all, given := OldLines(raw, kind, o), Given(calls, o);
    (o in index <==> |given| < |all|) && (o in index ==> index[o] == all[|given|..])
  }

  ghost predicate AllStand(raw: seq<string>, kind: string -> Kind, calls: seq<Call>, lines: seq<string>) {
    |raw| <= |lines| && forall i | 0 <= i < |raw| :: Stands(raw, kind, calls, lines, i)
  }

  ghost predicate AllLeft(raw: seq<string>, kind: string -> Kind, calls: seq<Call>, index: map<string, seq<nat>>) {
    forall o: string :: Left(raw, kind, calls, index, o)
  }

  ghost predicate AllMarked(calls: seq<Call>, rewritten: set<string>) { forall o: string :: o in rewritten <==> Processed(calls, o) }

  /** What comes behind the old lines, and whether the signature is still to come. */
  ghost predicate Behind(raw: seq<string>, kind: string -> Kind, added: seq<string>, lines: seq<string>, needs: bool) {
    var signed := SignatureIn(raw, kind, |raw|);
    && |raw| <= |lines| && lines[|raw|..] == (if signed || added == [] then [] else [SIGNATURE]) + added
    && (needs <==> !signed && added == [])
  }

  /** How a rewrite stands after `calls`. */
  ghost predicate InStep(raw: seq<string>, kind: string -> Kind, forceWrite: bool, calls: seq<Call>,
                         lines: seq<string>, index: map<string, seq<nat>>, rewritten: set<string>, needs: bool)
  {
    && AllStand(raw, kind, calls, lines) && AllLeft(raw, kind, calls, index) && AllMarked(calls, rewritten)
    && Behind(raw, kind, Added(raw, kind, forceWrite, calls), lines, needs)
  }

  lemma StepStarts(raw: seq<string>, kind: string -> Kind, forceWrite: bool, lines: seq<string>, tags: seq<Tag>, index: map<string, seq<nat>>, needs: bool)
    requires |lines| == |raw| && forall i | 0 <= i < |raw| :: lines[i] == if kind(raw[i]).Unusable? then "# ??? " + raw[i] else raw[i]
    requires |tags| == |raw| && forall i | 0 <= i < |raw| :: tags[i] == if kind(raw[i]).OptionLine? then Pending(kind(raw[i]).name) else Kept
    requires Indexed(tags, index) && (needs <==> !SignatureIn(raw, kind, |raw|))
    ensures InStep(raw, kind, forceWrite, [], lines, index, {}, needs)
  {
    hide AllLeft, AllMarked, Behind, Stands, Indexed, SignatureIn;
    forall i | 0 <= i < |raw| ensures Stands(raw, kind, [], lines, i) { StandsFirst(raw, kind, lines, i); }
    LeftAtFirst(raw, kind, tags, index);
    NoneMarked();
    NothingBehind(raw, kind, lines, needs);
  }

  lemma NoneMarked()
    ensures AllMarked([], {})
  {
  }

  lemma NothingBehind(raw: seq<string>, kind: string -> Kind, lines: seq<string>, needs: bool)
    requires |lines| == |raw| && (needs <==> !SignatureIn(raw, kind, |raw|))
    ensures Behind(raw, kind, [], lines, needs)
  {
    hide SignatureIn;
  }

  lemma StandsFirst(raw: seq<string>, kind: string -> Kind, lines: seq<string>, i: nat)
    requires i < |raw| <= |lines| && lines[i] == if kind(raw[i]).Unusable? then "# ??? " + raw[i] else raw[i]
    ensures Stands(raw, kind, [], lines, i)
  {
    hide OldLines;
  }

  lemma LeftAtFirst(raw: seq<string>, kind: string -> Kind, tags: seq<Tag>, index: map<string, seq<nat>>)
    requires |tags| == |raw| && forall i | 0 <= i < |raw| :: tags[i] == if kind(raw[i]).OptionLine? then Pending(kind(raw[i]).name) else Kept
    requires Indexed(tags, index)
    ensures AllLeft(raw, kind, [], index)
  {
    hide Left, Indexed;
    forall o: string ensures Left(raw, kind, [], index, o) { LeftFirst(raw, kind, tags, index, o); }
  }

  lemma LeftFirst(raw: seq<string>, kind: string -> Kind, tags: seq<Tag>, index: map<string, seq<nat>>, o: string)
    requires |tags| == |raw| && forall i | 0 <= i < |raw| :: tags[i] == if kind(raw[i]).OptionLine? then Pending(kind(raw[i]).name) else Kept
    requires Indexed(tags, index)
    ensures Left(raw, kind, [], index, o)
  {
    hide PendingOf, OldLines;
    OldLinesPending(raw, kind, tags, o);
    var all := OldLines(raw, kind, o);
    assert all[0..] == all;
  }

  lemma GivenMore(calls: seq<Call>, c: Call, o: string)
    ensures Given(calls + [c], o) == Given(calls, o) + if c.Rewrite? && c.option == o then [c.line] else []
    ensures Processed(calls + [c], o) <==> Processed(calls, o) || c.option == o
  {
    assert (calls + [c])[..|calls|] == calls;
    assert (calls + [c])[|calls|] == c && forall i | 0 <= i < |calls| :: (calls + [c])[i] == calls[i];
  }

  lemma AddedMore(raw: seq<string>, kind: string -> Kind, forceWrite: bool, calls: seq<Call>, c: Call)
    ensures Added(raw, kind, forceWrite, calls + [c]) == Added(raw, kind, forceWrite, calls) +
      if c.Rewrite? && |Given(calls, c.option)| >= |OldLines(raw, kind, c.option)| && (c.force || forceWrite) then [c.line] else []
  {
    assert (calls + [c])[..|calls|] == calls;
  }

  /** A line that is taken over for the option. */
  lemma StandsReused(raw: seq<string>, kind: string -> Kind, calls: seq<Call>, c: Call, lines: seq<string>, i: nat)
    requires c.Rewrite? && |Given(calls, c.option)| < |OldLines(raw, kind, c.option)|
    requires i < |raw| <= |lines| && Stands(raw, kind, calls, lines, i)
    ensures var n := OldLines(raw, kind, c.option)[|Given(calls, c.option)|]; n < |lines| && Stands(raw, kind, calls + [c], lines[n := c.line], i)
  {
    hide OldLines, Given;
    var given := Given(calls, c.option);
    OldLineAt(raw, kind, c.option, |given|);
    if kind(raw[i]).OptionLine? {
      var o := kind(raw[i]).name;
      GivenMore(calls, c, o);
      OldLineOf(raw, kind, o, i);
    }
  }

  /** A call that finds no line of its option any more, or is not about lines, moves no old line. */
  lemma StandsStill(raw: seq<string>, kind: string -> Kind, calls: seq<Call>, c: Call, lines: seq<string>, lines': seq<string>, i: nat)
    requires c.Mark? || |Given(calls, c.option)| >= |OldLines(raw, kind, c.option)|
    requires i < |raw| <= |lines| && Stands(raw, kind, calls, lines, i) && |lines| <= |lines'| && lines'[i] == lines[i]
    ensures Stands(raw, kind, calls + [c], lines', i)
  {
    hide OldLines, Given;
    if kind(raw[i]).OptionLine? {
      var o := kind(raw[i]).name;
      GivenMore(calls, c, o);
      OldLineOf(raw, kind, o, i);
    }
  }

  lemma LeftNext(raw: seq<string>, kind: string -> Kind, calls: seq<Call>, c: Call, index: map<string, seq<nat>>, index': map<string, seq<nat>>, o: string)
    requires Left(raw, kind, calls, index, o) && Left(raw, kind, calls, index, c.option)
    requires if c.Rewrite? && c.option in index then
               |index[c.option]| > 0 && index' == if |index[c.option]| == 1 then index - {c.option} else index[c.option := index[c.option][1..]]
             else index' == index
    ensures Left(raw, kind, calls + [c], index', o)
  {
    hide OldLines, Given;
    GivenMore(calls, c, o);
  }

  /** The parts that every call moves alike. */
  lemma CallMoves(raw: seq<string>, kind: string -> Kind, calls: seq<Call>, c: Call, index: map<string, seq<nat>>, rewritten: set<string>, index': map<string, seq<nat>>)
    requires AllLeft(raw, kind, calls, index) && AllMarked(calls, rewritten)
    requires if c.Rewrite? && c.option in index then
               |index[c.option]| > 0 && index' == if |index[c.option]| == 1 then index - {c.option} else index[c.option := index[c.option][1..]]
             else index' == index
    ensures AllLeft(raw, kind, calls + [c], index') && AllMarked(calls + [c], rewritten + {c.option})
  {
    hide Given, Processed, Left;
    forall p: string ensures Left(raw, kind, calls + [c], index', p) && (p in rewritten + {c.option} <==> Processed(calls + [c], p)) {
      LeftNext(raw, kind, calls, c, index, index', p);
      GivenMore(calls, c, p);
    }
  }

  lemma StepReuse(raw: seq<string>, kind: string -> Kind, forceWrite: bool, calls: seq<Call>, c: Call,
                  lines: seq<string>, index: map<string, seq<nat>>, rewritten: set<string>, needs: bool, index': map<string, seq<nat>>)
    requires InStep(raw, kind, forceWrite, calls, lines, index, rewritten, needs) && c.Rewrite? && c.option in index && |index[c.option]| > 0
    requires index' == if |index[c.option]| == 1 then index - {c.option} else index[c.option := index[c.option][1..]]
    ensures index[c.option][0] < |lines|
      && InStep(raw, kind, forceWrite, calls + [c], lines[index[c.option][0] := c.line], index', rewritten + {c.option}, needs)
  {
    hide Stands, OldLines, Given, Added, AllLeft, AllMarked, Behind;
    CallMoves(raw, kind, calls, c, index, rewritten, index');
    AddedMore(raw, kind, forceWrite, calls, c);
    LeftOf(raw, kind, calls, index, c.option);
    OldLineAt(raw, kind, c.option, |Given(calls, c.option)|);
    var n := index[c.option][0];
    var lines' := lines[n := c.line];
    forall i | 0 <= i < |raw| ensures Stands(raw, kind, calls + [c], lines', i) { StandsReused(raw, kind, calls, c, lines, i); }
    BehindSame(raw, kind, Added(raw, kind, forceWrite, calls), lines, needs, n, c.line);
    assert Added(raw, kind, forceWrite, calls) + [] == Added(raw, kind, forceWrite, calls);
  }

  lemma BehindSame(raw: seq<string>, kind: string -> Kind, added: seq<string>, lines: seq<string>, needs: bool, n: nat, line: string)
    requires Behind(raw, kind, added, lines, needs) && n < |raw|
    ensures n < |lines| && Behind(raw, kind, added, lines[n := line], needs)
  {
    hide SignatureIn;
    assert lines[n := line][|raw|..] == lines[|raw|..];
  }

  lemma LeftOf(raw: seq<string>, kind: string -> Kind, calls: seq<Call>, index: map<string, seq<nat>>, o: string)
    requires AllLeft(raw, kind, calls, index)
    ensures o in index <==> |Given(calls, o)| < |OldLines(raw, kind, o)|
    ensures o in index ==> index[o] == OldLines(raw, kind, o)[|Given(calls, o)|..]
  {
    hide OldLines, Given;
    assert Left(raw, kind, calls, index, o);
  }

  /** A call that adds lines at the end, or none. */
  lemma StepAdd(raw: seq<string>, kind: string -> Kind, forceWrite: bool, calls: seq<Call>, c: Call,
                lines: seq<string>, index: map<string, seq<nat>>, rewritten: set<string>, needs: bool, lines': seq<string>, needs': bool)
    requires InStep(raw, kind, forceWrite, calls, lines, index, rewritten, needs) && (c.Mark? || c.option !in index)
    requires if c.Rewrite? && (c.force || forceWrite) then lines' == lines + (if needs then [SIGNATURE] else []) + [c.line] && !needs'
             else lines' == lines && needs' == needs
    ensures InStep(raw, kind, forceWrite, calls + [c], lines', index, rewritten + {c.option}, needs')
  {
    hide Stands, OldLines, Given, Added, AllLeft, AllMarked, Behind;
    CallMoves(raw, kind, calls, c, index, rewritten, index);
    AddedMore(raw, kind, forceWrite, calls, c);
    LeftOf(raw, kind, calls, index, c.option);
    forall i | 0 <= i < |raw| ensures Stands(raw, kind, calls + [c], lines', i) { StandsStill(raw, kind, calls, c, lines, lines', i); }
    var added := Added(raw, kind, forceWrite, calls);
    if c.Rewrite? && (c.force || forceWrite) { BehindMore(raw, kind, added, lines, needs, c.line); } else { assert added + [] == added; }
  }

  lemma BehindMore(raw: seq<string>, kind: string -> Kind, added: seq<string>, lines: seq<string>, needs: bool, line: string)
    requires Behind(raw, kind, added, lines, needs)
    ensures Behind(raw, kind, added + [line], lines + (if needs then [SIGNATURE] else []) + [line], false)
  {
    hide SignatureIn;
    var lines' := lines + (if needs then [SIGNATURE] else []) + [line];
    assert lines'[|raw|..] == lines[|raw|..] + (if needs then [SIGNATURE] else []) + [line];
  }

  /** The end of the sweep, line by line. */
  lemma StepEnds(raw: seq<string>, kind: string -> Kind, forceWrite: bool, calls: seq<Call>, lines: seq<string>, index: map<string, seq<nat>>,
                 rewritten: set<string>, needs: bool, tags: seq<Tag>, lines': seq<string>, tags': seq<Tag>, i: nat)
    requires InStep(raw, kind, forceWrite, calls, lines, index, rewritten, needs) && Indexed(tags, index)
    requires |lines| == |tags| == |tags'| == |lines'| && i < |raw|
    requires tags'[i].Pending? ==> tags'[i].option !in rewritten
    requires tags'[i].Blanked? ==> lines'[i] == ""
    requires tags'[i] == tags[i] || (tags[i].Pending? && tags[i].option in rewritten && tags'[i] == Blanked(tags[i].option))
    requires tags'[i] == tags[i] ==> lines'[i] == lines[i]
    ensures match kind(raw[i])
      case Remark => lines'[i] == raw[i]
      case Unusable => lines'[i] == "# ??? " + raw[i]
      case OptionLine(o) =>
        var k := |OldLines(raw[..i], kind, o)|;
        lines'[i] == if k < |Given(calls, o)| then Given(calls, o)[k] else if Processed(calls, o) then "" else raw[i]
  {
    hide OldLines, Given, Added, Processed, SignatureIn, PendingOf, Indexed;
    assert Stands(raw, kind, calls, lines, i);
    PendingHere(raw, kind, calls, index, tags, i);
  }

  /** A line is still to be reused if and only if fewer lines than it were given for its option. */
  lemma PendingHere(raw: seq<string>, kind: string -> Kind, calls: seq<Call>, index: map<string, seq<nat>>, tags: seq<Tag>, i: nat)
    requires Indexed(tags, index) && AllLeft(raw, kind, calls, index) && i < |raw| <= |tags|
    ensures tags[i].Pending? <==> kind(raw[i]).OptionLine? && |OldLines(raw[..i], kind, kind(raw[i]).name)| >= |Given(calls, kind(raw[i]).name)|
    ensures tags[i].Pending? ==> kind(raw[i]) == OptionLine(tags[i].option)
  {
    hide OldLines, Given, PendingOf;
    if tags[i].Pending? {
      var o := tags[i].option;
      PendingAll(tags, o, i);
      LeftOf(raw, kind, calls, index, o);
      var k :| 0 <= k < |index[o]| && index[o][k] == i;
      OldLineAt(raw, kind, o, |Given(calls, o)| + k);
    } else if kind(raw[i]).OptionLine? {
      var o := kind(raw[i]).name;
      OldLineOf(raw, kind, o, i);
      LeftOf(raw, kind, calls, index, o);
      var k := |OldLines(raw[..i], kind, o)|;
      if k >= |Given(calls, o)| { PendingIn(tags, o, k - |Given(calls, o)|); }
    }
  }

  /**
   `rewriteConfig` from the old lines to the new: a comment stays, a line that cannot be used becomes a comment, a line of
   an option nobody asked about stays, and the k-th line of any other option is the k-th line given for it, or blank.
   Behind the old lines come those that found no place and had to be written, under the signature.
   */
  method RewriteFile(raw: seq<string>, kind: string -> Kind, forceWrite: bool, calls: seq<Call>) returns (lines: seq<string>, content: string)
    ensures |raw| <= |lines|
    ensures forall i | 0 <= i < |raw| ::
      match kind(raw[i])
      case Remark => lines[i] == raw[i]
      case Unusable => lines[i] == "# ??? " + raw[i]
      case OptionLine(o) =>
        if forall j | 0 <= j < |calls| :: calls[j].option != o then lines[i] == raw[i]
        else var k := |OldLines(raw[..i], kind, o)|; lines[i] == if k < |Given(calls, o)| then Given(calls, o)[k] else ""
    ensures var added, signature := Added(raw, kind, forceWrite, calls), "# Generated by CONFIG REWRITE";
      lines[|raw|..] == (if added == [] || exists i | 0 <= i < |raw| :: kind(raw[i]).Remark? && raw[i] == signature then [] else [signature]) + added
    ensures content == Joined(Squeezed(lines))
  {
    hide Tidy, InStep, OldLines, Given, Added, Joined, Squeezed, SignatureIn;
    var state := new RewriteState(forceWrite);
    state.ReadOldFile(raw, kind);
    TidyIs(state.lines, state.tags, state.optionToLine, state.emitted, state.original, state.needsSignature);
    StepStarts(raw, kind, forceWrite, state.lines, state.tags, state.optionToLine, state.needsSignature);
    for j := 0 to |calls|
      invariant fresh(state) && state.Valid() && state.forceWrite == forceWrite && |state.original| == |raw|
      invariant InStep(raw, kind, forceWrite, calls[..j], state.lines, state.optionToLine, state.rewritten, state.needsSignature)
    {
      var c := calls[j];
      assert calls[..j + 1] == calls[..j] + [c];
      ghost var lines0, index0, rewritten0, needs0 := state.lines, state.optionToLine, state.rewritten, state.needsSignature;
      match c {
        case Rewrite(option, line, force) => state.RewriteLine(option, line, force);
        case Mark(option) => state.MarkAsProcessed(option);
      }
      if c.Rewrite? && c.option in index0 {
        StepReuse(raw, kind, forceWrite, calls[..j], c, lines0, index0, rewritten0, needs0, state.optionToLine);
      } else {
        StepAdd(raw, kind, forceWrite, calls[..j], c, lines0, index0, rewritten0, needs0, state.lines, state.needsSignature);
      }
    }
    assert calls[..|calls|] == calls;
    TidyIs(state.lines, state.tags, state.optionToLine, state.emitted, state.original, state.needsSignature);
    ghost var lines0, tags0, index0 := state.lines, state.tags, state.optionToLine;
    state.RemoveOrphaned();
    lines := state.lines;
    Placed(raw, kind, forceWrite, calls, lines0, index0, state.rewritten, state.needsSignature, tags0, lines, state.tags, state.original);
    SignatureIs(raw, kind, |raw|);
    content := state.GetContent();
  }

  lemma {:induction false} SignatureIs(raw: seq<string>, kind: string -> Kind, n: nat)
    requires n <= |raw|
    ensures SignatureIn(raw, kind, n) <==> exists i | 0 <= i < n :: kind(raw[i]).Remark? && raw[i] == SIGNATURE
  {
    if n > 0 { SignatureIs(raw, kind, n - 1); }
  }

  lemma TidyIs(lines: seq<string>, tags: seq<Tag>, index: map<string, seq<nat>>, emitted: map<string, seq<string>>, original: seq<string>, needs: bool)
    requires Tidy(lines, tags, index, emitted, original, needs)
    ensures |lines| == |tags| && Indexed(tags, index) && forall i | 0 <= i < |tags| :: !tags[i].Blanked?
  {
  }

  lemma Placed(raw: seq<string>, kind: string -> Kind, forceWrite: bool, calls: seq<Call>, lines: seq<string>, index: map<string, seq<nat>>,
               rewritten: set<string>, needs: bool, tags: seq<Tag>, lines': seq<string>, tags': seq<Tag>, original: seq<string>)
    requires InStep(raw, kind, forceWrite, calls, lines, index, rewritten, needs) && Indexed(tags, index)
    requires |lines| == |tags| == |tags'| == |lines'|
    requires forall i | 0 <= i < |tags| :: !tags[i].Blanked?
    requires forall i | 0 <= i < |tags| :: tags'[i].Pending? ==> tags'[i].option !in rewritten
    requires forall i | 0 <= i < |tags| :: tags'[i].Blanked? ==> lines'[i] == ""
    requires forall i | 0 <= i < |tags| :: tags'[i] == tags[i] || (tags[i].Pending? && tags[i].option in rewritten && tags'[i] == Blanked(tags[i].option))
    requires forall i | 0 <= i < |tags| :: tags'[i] == tags[i] ==> lines'[i] == lines[i]
    requires Untouched(lines', tags', original) && |original| == |raw|
    ensures |raw| <= |lines'| && lines'[|raw|..] == lines[|raw|..]
    ensures forall i | 0 <= i < |raw| ::
      match kind(raw[i])
      case Remark => lines'[i] == raw[i]
      case Unusable => lines'[i] == "# ??? " + raw[i]
      case OptionLine(o) =>
        if forall j | 0 <= j < |calls| :: calls[j].option != o then lines'[i] == raw[i]
        else var k := |OldLines(raw[..i], kind, o)|; lines'[i] == if k < |Given(calls, o)| then Given(calls, o)[k] else ""
    ensures var added := Added(raw, kind, forceWrite, calls);
      lines'[|raw|..] == (if added == [] || SignatureIn(raw, kind, |raw|) then [] else [SIGNATURE]) + added
  {
    hide OldLines, Given, Added, SignatureIn, PendingOf, Indexed, Stands, Left;
    forall i | 0 <= i < |raw|
      ensures
        match kind(raw[i])
        case Remark => lines'[i] == raw[i]
        case Unusable => lines'[i] == "# ??? " + raw[i]
        case OptionLine(o) =>
          if forall j | 0 <= j < |calls| :: calls[j].option != o then lines'[i] == raw[i]
          else var k := |OldLines(raw[..i], kind, o)|; lines'[i] == if k < |Given(calls, o)| then Given(calls, o)[k] else ""
    {
      StepEnds(raw, kind, forceWrite, calls, lines, index, rewritten, needs, tags, lines', tags', i);
      if kind(raw[i]).OptionLine? { GivenProcessed(calls, kind(raw[i]).name); }
    }
    forall i | |raw| <= i < |lines| ensures lines'[i] == lines[i] { }
  }

  lemma {:induction false} GivenProcessed(calls: seq<Call>, o: string)
    ensures |Given(calls, o)| > 0 ==> exists j | 0 <= j < |calls| :: calls[j].option == o
  {
    if |calls| > 0 {
      var front := calls[..|calls| - 1];
      GivenProcessed(front, o);
      if j :| 0 <= j < |front| && front[j].option == o { assert calls[j].option == o; }
    }
  }

  // ------------------------------------------------------------------ the new file

  /** Every cluster of empty lines made one. */
  function Squeezed(lines: seq<string>): seq<string> {
    if |lines| == 0 then []
    else
      var k := |lines| - 1;
      if lines[k] == "" && k > 0 && lines[k - 1] == "" then Squeezed(lines[..k]) else Squeezed(lines[..k]) + [lines[k]]
  }

  function Joined(lines: seq<string>): string {
    if |lines| == 0 then "" else Joined(lines[..|lines| - 1]) + lines[|lines| - 1] + "\n"
  }

  lemma SqueezedGrows(lines: seq<string>, j: nat)
    requires j < |lines|
    ensures Squeezed(lines[..j + 1]) ==
      if lines[j] == "" && j > 0 && lines[j - 1] == "" then Squeezed(lines[..j]) else Squeezed(lines[..j]) + [lines[j]]
  {
    assert lines[..j + 1][..j] == lines[..j];
  }

  lemma JoinedGrows(lines: seq<string>, line: string)
    ensures Joined(lines + [line]) == Joined(lines) + line + "\n"
  {
    assert (lines + [line])[..|lines|] == lines;
  }

  function NonBlank(lines: seq<string>): seq<string> {
    if |lines| == 0 then []
    else NonBlank(lines[..|lines| - 1]) + (if lines[|lines| - 1] == "" then [] else [lines[|lines| - 1]])
  }

  ghost predicate BlanksApart(lines: seq<string>) { forall i | 0 <= i < |lines| - 1 :: lines[i] != "" || lines[i + 1] != "" }

  ghost predicate EndsLike(a: seq<string>, b: seq<string>) { |b| > 0 ==> |a| > 0 && a[|a| - 1] == b[|b| - 1] }

  lemma NonBlankGrows(lines: seq<string>, line: string)
    ensures NonBlank(lines + [line]) == NonBlank(lines) + (if line == "" then [] else [line])
  {
    assert (lines + [line])[..|lines|] == lines;
  }

  lemma ApartGrows(lines: seq<string>, line: string)
    requires BlanksApart(lines) && (line == "" && |lines| > 0 ==> lines[|lines| - 1] != "")
    ensures BlanksApart(lines + [line])
  {
  }

  /** Squeezing keeps every line with text, in order, and leaves no two blank lines together. */
  lemma {:induction false} SqueezedKeeps(lines: seq<string>)
    ensures NonBlank(Squeezed(lines)) == NonBlank(lines) && BlanksApart(Squeezed(lines)) && EndsLike(Squeezed(lines), lines)
  {
    hide NonBlank, BlanksApart;
    if |lines| == 0 {
      NoBlanksYet();
    } else {
      var k := |lines| - 1;
      var front, kept := lines[..k], Squeezed(lines[..k]);
      SqueezedKeeps(front);
      NonBlankGrows(front, lines[k]);
      assert front + [lines[k]] == lines;
      if !(lines[k] == "" && k > 0 && lines[k - 1] == "") {
        NonBlankGrows(kept, lines[k]);
        SqueezedNone(front);
        ApartGrows(kept, lines[k]);
      }
    }
  }

  /** Where no two blank lines stand together nothing is taken away, and of two together one is. */
  lemma {:induction false} SqueezedApart(lines: seq<string>)
    requires BlanksApart(lines)
    ensures Squeezed(lines) == lines
  {
    if |lines| > 0 {
      var k := |lines| - 1;
      SqueezedApart(lines[..k]);
      assert lines[..k] + [lines[k]] == lines;
      if k > 0 { assert lines[k - 1] != "" || lines[k - 1 + 1] != ""; }
    }
  }

  lemma {:induction false} SqueezedPair(a: seq<string>, b: seq<string>)
    ensures Squeezed(a + ["", ""] + b) == Squeezed(a + [""] + b)
    decreases |b|
  {
    var l, r := a + ["", ""] + b, a + [""] + b;
    if |b| == 0 {
      assert l[..|l| - 1] == r;
    } else {
      var front := b[..|b| - 1];
      SqueezedPair(a, front);
      assert l[..|l| - 1] == a + ["", ""] + front && r[..|r| - 1] == a + [""] + front;
      if |b| > 1 { assert l[|l| - 2] == b[|b| - 2] == r[|r| - 2]; }
    }
  }

  lemma NoBlanksYet()
    ensures BlanksApart([]) && NonBlank([]) == []
  {
  }

  lemma SqueezedNone(lines: seq<string>)
    ensures |lines| == 0 ==> Squeezed(lines) == []
  {
  }

  lemma Swept(lines: seq<string>, tags: seq<Tag>, index: map<string, seq<nat>>, emitted: map<string, seq<string>>,
              original: seq<string>, needs: bool, lines0: seq<string>, tags0: seq<Tag>, rewritten: set<string>)
    requires Sweeping(lines, tags, index, emitted, original, needs, lines0, tags0, rewritten)
    requires forall o | o in index && o in rewritten :: index[o] == []
    ensures |lines| == |tags| == |tags0| == |lines0| && Recorded(lines, tags, emitted) && Untouched(lines, tags, original) && SignedOnce(lines, tags, needs)
    ensures forall i | 0 <= i < |tags| :: tags[i].Pending? ==> tags[i].option !in rewritten
    ensures forall i | 0 <= i < |tags| :: tags[i].Blanked? ==> lines[i] == ""
    ensures forall i | 0 <= i < |tags| :: tags[i] == tags0[i] || (tags0[i].Pending? && tags0[i].option in rewritten && tags[i] == Blanked(tags0[i].option))
    ensures forall i | 0 <= i < |tags| :: tags[i] == tags0[i] ==> lines[i] == lines0[i]
  {
    hide Mapped, Recorded, Untouched, SignedOnce;
    forall i | 0 <= i < |tags| && tags[i].Pending? ensures tags[i].option !in rewritten { StillMapped(tags, index, i); }
  }

  lemma StillMapped(tags: seq<Tag>, index: map<string, seq<nat>>, i: nat)
    requires Mapped(tags, index) && i < |tags| && tags[i].Pending?
    ensures tags[i].option in index && |index[tags[i].option]| > 0
  {
    hide PendingOf;
    PendingAll(tags, tags[i].option, i);
  }

  /** Taking the first pending line of an option for a new text. */
  lemma Reuse(lines: seq<string>, tags: seq<Tag>, index: map<string, seq<nat>>, emitted: map<string, seq<string>>,
              original: seq<string>, needs: bool, o: string, line: string)
    requires |lines| == |tags| && Mapped(tags, index) && o in index && |index[o]| > 0
    requires Recorded(lines, tags, emitted) && AllInOrder(tags) && Untouched(lines, tags, original) && SignedOnce(lines, tags, needs)
    ensures index[o][0] < |tags| && tags[index[o][0]] == Pending(o)
    ensures
      var n := index[o][0]; var lines', tags' := lines[n := line], tags[n := Written(o)];
      && Mapped(tags', index[o := index[o][1..]]) && AllInOrder(tags')
      && Recorded(lines', tags', emitted[o := Emitted(emitted, o) + [line]])
      && Untouched(lines', tags', original) && SignedOnce(lines', tags', needs)
  {
    hide PendingOf, TextsOf, Mapped;
    var n := FirstIs(tags, index, o);
    TakeFirst(lines, tags, index, o, Written(o), line);
    var lines', tags' := lines[n := line], tags[n := Written(o)];
    forall o2: string ensures InOrder(tags', o2) {
      assert InOrder(tags, o2);
      if o2 == o { FirstIsFirst(tags, index, o); }
    }
    forall o2: string ensures TextsOf(lines', tags', o2) == Emitted(emitted[o := Emitted(emitted, o) + [line]], o2) {
      assert TextsOf(lines, tags, o2) == Emitted(emitted, o2);
      if o2 == o {
        assert InOrder(tags, o);
        WrittenLast(lines, tags, n, line, o);
      } else {
        OthersTexts(lines, tags, n, line, Written(o), o2);
      }
    }
  }

  lemma FirstIs(tags: seq<Tag>, index: map<string, seq<nat>>, o: string) returns (n: nat)
    requires Mapped(tags, index) && o in index && |index[o]| > 0
    ensures n == index[o][0] && n < |tags| && tags[n] == Pending(o)
  {
    n := index[o][0];
    PendingIn(tags, o, 0);
  }

  /** No pending line of the option comes before the first. */
  lemma FirstIsFirst(tags: seq<Tag>, index: map<string, seq<nat>>, o: string)
    requires Mapped(tags, index) && o in index && |index[o]| > 0
    ensures forall i | 0 <= i < |tags| && i < index[o][0] :: tags[i] != Pending(o)
  {
    forall i | 0 <= i < |tags| && i < index[o][0] ensures tags[i] != Pending(o) {
      if tags[i] == Pending(o) { LeastPending(tags, o, i); }
    }
  }

  lemma {:induction false} LeastPending(tags: seq<Tag>, o: string, i: nat)
    requires i < |tags| && |PendingOf(tags, o)| > 0 && tags[i] == Pending(o)
    ensures PendingOf(tags, o)[0] <= i
  {
    var front := tags[..|tags| - 1];
    if i < |tags| - 1 {
      PendingAll(front, o, i);
      LeastPending(front, o, i);
    } else if |PendingOf(front, o)| > 0 {
      PendingIn(front, o, 0);
    }
  }

  /** A line at the end. */
  lemma Extend(lines: seq<string>, tags: seq<Tag>, index: map<string, seq<nat>>, emitted: map<string, seq<string>>,
               original: seq<string>, needs: bool, line: string, t: Tag)
    requires |lines| == |tags| && Indexed(tags, index)
    requires Recorded(lines, tags, emitted) && AllInOrder(tags) && Untouched(lines, tags, original) && SignedOnce(lines, tags, needs)
    requires (t.Written? && t.option !in index) || (t == Signed && needs && line == SIGNATURE)
    ensures
      var lines', tags' := lines + [line], tags + [t];
      && Indexed(tags', index) && AllInOrder(tags') && Untouched(lines', tags', original)
      && Recorded(lines', tags', if t.Written? then emitted[t.option := Emitted(emitted, t.option) + [line]] else emitted)
      && SignedOnce(lines', tags', needs && t != Signed)
  {
    hide PendingOf, TextsOf;
    var lines', tags' := lines + [line], tags + [t];
    IndexGrows(tags, index, t, index);
    forall o: string ensures InOrder(tags', o) {
      assert InOrder(tags, o);
      if t == Written(o) { NothingPending(tags, index, o); }
    }
    forall o: string
      ensures TextsOf(lines', tags', o) == Emitted(if t.Written? then emitted[t.option := Emitted(emitted, t.option) + [line]] else emitted, o)
    {
      Appended(lines, tags, line, t, o);
    }
  }

  lemma NothingPending(tags: seq<Tag>, index: map<string, seq<nat>>, o: string)
    requires Indexed(tags, index) && o !in index
    ensures forall i | 0 <= i < |tags| :: tags[i] != Pending(o)
  {
    hide PendingOf;
    assert PendingOf(tags, o) == [];
    forall i | 0 <= i < |tags| ensures tags[i] != Pending(o) { if tags[i] == Pending(o) { PendingAll(tags, o, i); } }
  }

  /** Blanking the first pending line of an option. */
  lemma BlankOne(lines: seq<string>, tags: seq<Tag>, index: map<string, seq<nat>>, emitted: map<string, seq<string>>,
                 original: seq<string>, needs: bool, o: string)
    requires |lines| == |tags| && Mapped(tags, index) && o in index && |index[o]| > 0
    requires Recorded(lines, tags, emitted) && Untouched(lines, tags, original) && SignedOnce(lines, tags, needs)
    ensures index[o][0] < |tags| && tags[index[o][0]] == Pending(o)
    ensures
      var n := index[o][0]; var lines', tags' := lines[n := ""], tags[n := Blanked(o)];
      && Mapped(tags', index[o := index[o][1..]]) && Recorded(lines', tags', emitted)
      && Untouched(lines', tags', original) && SignedOnce(lines', tags', needs)
  {
    hide PendingOf, TextsOf, Mapped;
    var n := FirstIs(tags, index, o);
    TakeFirst(lines, tags, index, o, Blanked(o), "");
  }

  ghost predicate LoadedUpTo(raw: seq<string>, kind: string -> Kind, n: nat, lines: seq<string>, tags: seq<Tag>) {
    && n <= |raw| && |lines| == |tags| == n
    && forall k | 0 <= k < n :: lines[k] == Loaded(raw[k], kind(raw[k])) && tags[k] == TagOf(kind(raw[k]))
  }

  lemma NothingLoaded(raw: seq<string>, kind: string -> Kind)
    ensures LoadedUpTo(raw, kind, 0, [], [])
  {
  }

  lemma LoadedOneMore(raw: seq<string>, kind: string -> Kind, n: nat, lines: seq<string>, tags: seq<Tag>)
    requires LoadedUpTo(raw, kind, n, lines, tags) && n < |raw|
    ensures LoadedUpTo(raw, kind, n + 1, lines + [Loaded(raw[n], kind(raw[n]))], tags + [TagOf(kind(raw[n]))])
  {
    hide Loaded, TagOf;
  }

  lemma AllLoaded(raw: seq<string>, kind: string -> Kind, lines: seq<string>, tags: seq<Tag>)
    requires LoadedUpTo(raw, kind, |raw|, lines, tags)
    ensures forall i | 0 <= i < |raw| :: lines[i] == if kind(raw[i]).Unusable? then "# ??? " + raw[i] else raw[i]
    ensures |tags| == |raw| && forall i | 0 <= i < |raw| :: tags[i] == if kind(raw[i]).OptionLine? then Pending(kind(raw[i]).name) else Kept
    ensures forall i | 0 <= i < |tags| :: tags[i].Kept? || tags[i].Pending?
  {
  }

  lemma TagKinds(k: Kind)
    ensures TagOf(k) == if k.OptionLine? then Pending(k.name) else Kept
  {
  }

  lemma NothingRecorded(lines: seq<string>, tags: seq<Tag>, line: string, t: Tag)
    requires |lines| == |tags| && Recorded(lines, tags, map[]) && !t.Written?
    ensures Recorded(lines + [line], tags + [t], map[])
  {
    hide TextsOf, PendingOf;
    forall o: string ensures TextsOf(lines + [line], tags + [t], o) == Emitted(map[], o) { Appended(lines, tags, line, t, o); }
  }

  lemma FreshIsTidy(lines: seq<string>, tags: seq<Tag>, needs: bool)
    requires |lines| == |tags| && forall i | 0 <= i < |tags| :: tags[i].Kept? || tags[i].Pending?
    ensures AllInOrder(tags) && Untouched(lines, tags, lines) && SignedOnce(lines, tags, needs)
  {
  }

  lemma IndexGrows(tags: seq<Tag>, index: map<string, seq<nat>>, t: Tag, index': map<string, seq<nat>>)
    requires Indexed(tags, index)
    requires index' == if t.Pending? then index[t.option := (if t.option in index then index[t.option] else []) + [|tags|]] else index
    ensures Indexed(tags + [t], index')
  {
    hide PendingOf, TextsOf;
    forall o: string ensures if o in index' then index'[o] == PendingOf(tags + [t], o) && |index'[o]| > 0 else PendingOf(tags + [t], o) == [] {
      PendingAppended(tags, t, o);
    }
  }

  lemma PendingAppended(tags: seq<Tag>, t: Tag, o: string)
    ensures PendingOf(tags + [t], o) == PendingOf(tags, o) + (if t == Pending(o) then [|tags|] else [])
  {
    assert (tags + [t])[..|tags|] == tags;
  }
}
