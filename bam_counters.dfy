/**
 * The alignment-evidence counters of the legacy package: soft-clipped bases and
 * insertion/deletion events over a CIGAR string (section 1.4 of the SAM format
 * specification, field CIGAR), and mismatch events over an MD:Z tag (SAM optional
 * fields specification, standard tag MD).
 */
module BamCounters {
  import opened Text
  import opened Seqs
  import opened Outcomes

  // ---------------------------------------------------------------------------
  // count_soft_clip_bases

  /** One CIGAR operation: a length and an operation code. */
  datatype CigarOp = CigarOp(len: nat, code: char)

  /** The operation codes `[MIDNHP=X]` of the pattern plus the soft clip `S`. */
  const CigarCodes: string := "MIDNSHP=X"

  /** Length of the run of ASCII digits at the start of `s`. */
  function DigitRun(s: string): (n: nat)
    ensures n <= |s| && AllDigits(s[..n]) && (n < |s| ==> !IsDigit(s[n]))
  {
    if s != [] && IsDigit(s[0]) then
      var n := 1 + DigitRun(s[1..]);
      assert forall i :: 1 <= i < n ==> s[..n][i] == s[1..][..n - 1][i - 1];
      n
    else 0
  }

  lemma {:induction false} DigitRunOfNumber(d: string, rest: string)
    requires AllDigits(d) && (rest == [] || !IsDigit(rest[0]))
    ensures DigitRun(d + rest) == |d|
  {
    if d != [] {
      assert (d + rest)[1..] == d[1..] + rest;
      DigitRunOfNumber(d[1..], rest);
    } else {
      assert d + rest == rest;
    }
  }

  /**
   * Splits a CIGAR body into `[0-9]+` and operation-code pairs. Because a code is
   * never a digit, the digit run of each pair is the longest one, so the split is
   * the only way `(?:[0-9]+[MIDNSHP=X])*` can match the body.
   */
  function ParseCigar(s: string): Option<seq<CigarOp>>
  {
    if s == [] then Some([])
    else
      var n := DigitRun(s);
      if n == 0 || n == |s| || s[n] !in CigarCodes then None
      else
        match ParseCigar(s[n + 1..])
        case None => None
        case Some(rest) => Some([CigarOp(DigitsValue(s[..n]), s[n])] + rest)
  }

  /** The CIGAR text of a list of operations, each length in decimal. */
  function RenderCigar(ops: seq<CigarOp>): string
  {
    if ops == [] then "" else NatToDigits(ops[0].len) + [ops[0].code] + RenderCigar(ops[1..])
  }

  predicate ValidCodes(ops: seq<CigarOp>)
  {
    forall k :: 0 <= k < |ops| ==> ops[k].code in CigarCodes
  }

  /** One step of the split: a digit run and a code in front of the rest. */
  lemma ParseCigarStep(d: string, c: char, tail: string)
    requires d != [] && AllDigits(d) && c in CigarCodes
    ensures ParseCigar(d + [c] + tail)
         == match ParseCigar(tail)
            case None => None
            case Some(rest) => Some([CigarOp(DigitsValue(d), c)] + rest)
  {
    var s := d + [c] + tail;
    assert s == d + ([c] + tail);
    assert !IsDigit(c) by { assert c in CigarCodes; }
    DigitRunOfNumber(d, [c] + tail);
    assert s[..|d|] == d && s[|d|] == c && s[|d| + 1..] == tail;
  }

  lemma {:induction false} ParseRenderCigar(ops: seq<CigarOp>)
    requires ValidCodes(ops)
    ensures ParseCigar(RenderCigar(ops)) == Some(ops)
  {
    if ops != [] {
      ParseCigarStep(NatToDigits(ops[0].len), ops[0].code, RenderCigar(ops[1..]));
      DigitsRoundTrip(ops[0].len);
      ParseRenderCigar(ops[1..]);
      assert ops == [ops[0]] + ops[1..];
    }
  }

  /** Index of the first operation after an optional leading soft clip. */
  function BodyStart(ops: seq<CigarOp>): nat
  {
    if |ops| > 0 && ops[0].code == 'S' then 1 else 0
  }

  /** Index just past the last operation before an optional trailing soft clip. */
  function BodyEnd(ops: seq<CigarOp>): nat
  {
    if |ops| > BodyStart(ops) && ops[|ops| - 1].code == 'S' then |ops| - 1 else |ops|
  }

  /**
   * The shape `S? (op)+ S?` of `^(?:([0-9]+)S)?(?:[0-9]+[MIDNHP=X])+(?:([0-9]+)S)?$`:
   * at least one operation, and no `S` except first or last.
   */
  predicate SoftClipShape(ops: seq<CigarOp>)
  {
    BodyStart(ops) < BodyEnd(ops) && forall k :: BodyStart(ops) <= k < BodyEnd(ops) ==> ops[k].code != 'S'
  }

  /** Length of the leading `S`, or 0. */
  function LeadingClip(ops: seq<CigarOp>): nat
  {
    if BodyStart(ops) == 1 then ops[0].len else 0
  }

  /** Length of the trailing `S`, or 0. */
  function TrailingClip(ops: seq<CigarOp>): nat
  {
    if BodyEnd(ops) < |ops| then ops[|ops| - 1].len else 0
  }

  /** Python's `$`: the subject without its final newline, if it has one. */
  function BeforeFinalNewline(s: string): string
  {
    if |s| > 0 && s[|s| - 1] == '\n' then s[..|s| - 1] else s
  }

  /** count_soft_clip_bases: the two optional soft clips of a well-shaped CIGAR, else 0. */
  function CountSoftClipBases(cigar: string): nat
  {
    match ParseCigar(BeforeFinalNewline(cigar))
    case None => 0
    case Some(ops) => if SoftClipShape(ops) then LeadingClip(ops) + TrailingClip(ops) else 0
  }

  /** On any CIGAR written from operations, the count is the leading plus the trailing soft clip, or 0 when the shape is wrong. */
  lemma SoftClipOfRendered(ops: seq<CigarOp>)
    requires ValidCodes(ops)
    ensures CountSoftClipBases(RenderCigar(ops))
         == if SoftClipShape(ops) then LeadingClip(ops) + TrailingClip(ops) else 0
  {
    var s := RenderCigar(ops);
    assert BeforeFinalNewline(s) == s by {
      if ops != [] {
        RenderCigarLast(ops);
        assert ops[|ops| - 1].code in CigarCodes;
      }
    }
    ParseRenderCigar(ops);
  }

  lemma {:induction false} RenderCigarLast(ops: seq<CigarOp>)
    requires ops != []
    ensures var s := RenderCigar(ops); |s| > 0 && s[|s| - 1] == ops[|ops| - 1].code
  {
    if |ops| > 1 {
      RenderCigarLast(ops[1..]);
    }
  }

  // ---------------------------------------------------------------------------
  // count_indel_events

  /** A `groupby` run whose key `str.isalpha` is true. */
  predicate IsLetterRun(r: string) { r != [] && IsLetter(r[0]) }

  predicate IsIndelEvent(e: string) { e == "I" || e == "D" }

  /** count_indel_events: the alphabetic runs that are exactly `I` or `D`. */
  function CountIndelEvents(cigar: string): nat
  {
    IndelEventsOfRuns(Runs(cigar, IsLetter))
  }

  function IndelEventsOfRuns(runs: seq<string>): nat
  {
    CountIf(Filter(runs, IsLetterRun), IsIndelEvent)
  }

  lemma IndelEventsOfRunsAppend(a: seq<string>, b: seq<string>)
    ensures IndelEventsOfRuns(a + b) == IndelEventsOfRuns(a) + IndelEventsOfRuns(b)
  {
    FilterAppend(a, b, IsLetterRun);
    CountIfAppend(Filter(a, IsLetterRun), Filter(b, IsLetterRun), IsIndelEvent);
  }

  lemma IndelEventsOfRun(r: string)
    ensures IndelEventsOfRuns([r]) == if IsLetterRun(r) && IsIndelEvent(r) then 1 else 0
  {
    assert [r][1..] == [];
    if IsLetterRun(r) {
      assert Filter([r], IsLetterRun) == [r];
      assert CountIf([r], IsIndelEvent) == (if IsIndelEvent(r) then 1 else 0) + CountIf([r][1..], IsIndelEvent);
    } else {
      assert Filter([r], IsLetterRun) == [];
    }
  }

  /** The count splits at any seam that does not join two letters into one run. */
  lemma IndelEventsSplit(s: string, t: string)
    requires s == [] || t == [] || !IsLetter(s[|s| - 1]) || !IsLetter(t[0])
    ensures CountIndelEvents(s + t) == CountIndelEvents(s) + CountIndelEvents(t)
  {
    if s == [] {
      assert s + t == t;
    } else if t == [] {
      assert s + t == s;
    } else if IsLetter(s[|s| - 1]) != IsLetter(t[0]) {
      RunsAppend(s, t, IsLetter);
      IndelEventsOfRunsAppend(Runs(s, IsLetter), Runs(t, IsLetter));
    } else {
      IndelEventsMerge(s, t);
    }
  }

  /** Two texts whose touching ends fall in the same class: the runs that meet are merged into one. */
  lemma IndelEventsMerge(s: string, t: string)
    requires s != [] && t != [] && IsLetter(s[|s| - 1]) == IsLetter(t[0])
    requires !IsLetter(s[|s| - 1]) || !IsLetter(t[0])
    ensures CountIndelEvents(s + t) == CountIndelEvents(s) + CountIndelEvents(t)
  {
    RunsMerge(s, t, IsLetter);
    RunsLast(s, IsLetter);
    var rs := Runs(s, IsLetter);
    var rt := Runs(t, IsLetter);
    var init := rs[..|rs| - 1];
    var merged := rs[|rs| - 1] + rt[0];
    assert Runs(s + t, IsLetter) == (init + [merged]) + rt[1..];
    IndelEventsOfRunsAppend(init + [merged], rt[1..]);
    IndelEventsOfRunsAppend(init, [merged]);
    IndelEventsOfRun(merged);
    assert rs == init + [rs[|rs| - 1]];
    IndelEventsOfRunsAppend(init, [rs[|rs| - 1]]);
    IndelEventsOfRun(rs[|rs| - 1]);
    assert rt == [rt[0]] + rt[1..];
    IndelEventsOfRunsAppend([rt[0]], rt[1..]);
    IndelEventsOfRun(rt[0]);
  }

  predicate IsIndelOp(op: CigarOp) { op.code == 'I' || op.code == 'D' }

  lemma RenderCigarFirst(ops: seq<CigarOp>)
    requires ops != []
    ensures RenderCigar(ops) != [] && IsDigit(RenderCigar(ops)[0])
  {
    assert RenderCigar(ops)[0] == NatToDigits(ops[0].len)[0];
  }

  /** One operation's text holds one indel event exactly when it is an `I` or `D` operation. */
  lemma IndelOfOp(op: CigarOp)
    requires op.code in CigarCodes
    ensures CountIndelEvents(NatToDigits(op.len) + [op.code]) == if IsIndelOp(op) then 1 else 0
  {
    var d := NatToDigits(op.len);
    var c := op.code;
    assert IsDigit(d[|d| - 1]);
    IndelEventsSplit(d, [c]);
    assert Uniform(d, IsLetter);
    RunsOfUniform(d, IsLetter);
    IndelEventsOfRun(d);
    assert Runs([c], IsLetter) == [[c]];
    IndelEventsOfRun([c]);
  }

  /** On any CIGAR written from operations, the count is the number of `I` and `D` operations, whatever their lengths. */
  lemma {:induction false} IndelOfRendered(ops: seq<CigarOp>)
    requires ValidCodes(ops)
    ensures CountIndelEvents(RenderCigar(ops)) == CountIf(ops, IsIndelOp)
  {
    if ops != [] {
      var d := NatToDigits(ops[0].len);
      var c := ops[0].code;
      var tail := RenderCigar(ops[1..]);
      IndelOfRendered(ops[1..]);
      assert ops[0].code in CigarCodes;
      IndelOfOp(ops[0]);
      if tail != [] {
        RenderCigarFirst(ops[1..]);
        assert (d + [c])[|d + [c]| - 1] == c;
      }
      IndelEventsSplit(d + [c], tail);
      assert CountIf(ops, IsIndelOp) == (if IsIndelOp(ops[0]) then 1 else 0) + CountIf(ops[1..], IsIndelOp);
    }
  }

  // ---------------------------------------------------------------------------
  // count_mismatch_events

  /** The `groupby` key `k.isalpha() or not k.isalnum()`. */
  predicate MdKey(c: char) { IsLetter(c) || !IsAlnum(c) }

  predicate IsMdKeyRun(r: string) { r != [] && MdKey(r[0]) }

  /** count_mismatch_events: the runs of non-digits that are all letters. */
  function CountMismatchEvents(md: string): nat
  {
    CountIf(Filter(Runs(md, MdKey), IsMdKeyRun), IsAlpha)
  }

  function MismatchEventsOfRuns(runs: seq<string>): nat
  {
    CountIf(Filter(runs, IsMdKeyRun), IsAlpha)
  }

  lemma MismatchEventsOfRunsAppend(a: seq<string>, b: seq<string>)
    ensures MismatchEventsOfRuns(a + b) == MismatchEventsOfRuns(a) + MismatchEventsOfRuns(b)
  {
    FilterAppend(a, b, IsMdKeyRun);
    CountIfAppend(Filter(a, IsMdKeyRun), Filter(b, IsMdKeyRun), IsAlpha);
  }

  lemma MismatchEventsOfRun(r: string)
    ensures MismatchEventsOfRuns([r]) == if IsMdKeyRun(r) && IsAlpha(r) then 1 else 0
  {
    assert [r][1..] == [];
    if IsMdKeyRun(r) {
      assert Filter([r], IsMdKeyRun) == [r];
      assert CountIf([r], IsAlpha) == (if IsAlpha(r) then 1 else 0) + CountIf([r][1..], IsAlpha);
    } else {
      assert Filter([r], IsMdKeyRun) == [];
    }
  }

  /** The count splits at a seam between a digit and a non-digit. */
  lemma MismatchEventsSplit(s: string, t: string)
    requires s != [] && t != [] && MdKey(s[|s| - 1]) != MdKey(t[0])
    ensures CountMismatchEvents(s + t) == CountMismatchEvents(s) + CountMismatchEvents(t)
  {
    RunsAppend(s, t, MdKey);
    MismatchEventsOfRunsAppend(Runs(s, MdKey), Runs(t, MdKey));
  }

  /** What follows a run of matches in an MD string: one mismatched base, or `^` and the deleted bases. */
  datatype MdItem = MdMismatch(base: char) | MdDeletion(bases: string)

  predicate ValidMdItem(item: MdItem)
  {
    match item
    case MdMismatch(b) => IsLetter(b)
    case MdDeletion(bs) => AllLetters(bs)
  }

  function MdItemText(item: MdItem): string
  {
    match item
    case MdMismatch(b) => [b]
    case MdDeletion(bs) => "^" + bs
  }

  /** The MD text `[0-9]+(([A-Z]|\^[A-Z]+)[0-9]+)*`: a match count, then items each followed by a count. */
  function RenderMd(first: nat, items: seq<(MdItem, nat)>): string
  {
    NatToDigits(first) + RenderMdItems(items)
  }

  function RenderMdItems(items: seq<(MdItem, nat)>): string
  {
    if items == [] then "" else MdItemText(items[0].0) + NatToDigits(items[0].1) + RenderMdItems(items[1..])
  }

  predicate IsMismatchItem(entry: (MdItem, nat)) { entry.0.MdMismatch? }

  /** The items' text is a single run of non-digits, all letters exactly for a mismatch. */
  lemma MdItemCount(item: MdItem)
    requires ValidMdItem(item)
    ensures var t := MdItemText(item); t != [] && MdKey(t[0]) && MdKey(t[|t| - 1])
    ensures CountMismatchEvents(MdItemText(item)) == if item.MdMismatch? then 1 else 0
  {
    var t := MdItemText(item);
    assert Uniform(t, MdKey);
    RunsOfUniform(t, MdKey);
    MismatchEventsOfRun(t);
    if item.MdDeletion? {
      assert t[0] == '^' && !IsLetter(t[0]);
    }
  }

  lemma DigitsMismatchCount(d: string)
    requires d != [] && AllDigits(d)
    ensures CountMismatchEvents(d) == 0
  {
    assert Uniform(d, MdKey);
    RunsOfUniform(d, MdKey);
    MismatchEventsOfRun(d);
  }

  /** One item and the match count after it: a non-digit first, a digit last, one event exactly for a mismatch. */
  lemma MismatchOfEntry(entry: (MdItem, nat))
    requires ValidMdItem(entry.0)
    ensures var s := MdItemText(entry.0) + NatToDigits(entry.1);
      s != [] && MdKey(s[0]) && IsDigit(s[|s| - 1])
    ensures CountMismatchEvents(MdItemText(entry.0) + NatToDigits(entry.1)) == if IsMismatchItem(entry) then 1 else 0
  {
    var t := MdItemText(entry.0);
    var d := NatToDigits(entry.1);
    MdItemCount(entry.0);
    DigitsMismatchCount(d);
    MismatchEventsSplit(t, d);
  }

  lemma {:induction false} MismatchOfRenderedItems(items: seq<(MdItem, nat)>)
    requires forall k :: 0 <= k < |items| ==> ValidMdItem(items[k].0)
    ensures var s := RenderMdItems(items); s == [] || (MdKey(s[0]) && IsDigit(s[|s| - 1]))
    ensures CountMismatchEvents(RenderMdItems(items)) == CountIf(items, IsMismatchItem)
  {
    if items != [] {
      var head := MdItemText(items[0].0) + NatToDigits(items[0].1);
      var rest := RenderMdItems(items[1..]);
      assert RenderMdItems(items) == head + rest;
      assert ValidMdItem(items[0].0);
      MismatchOfRenderedItems(items[1..]);
      RenderedItemStep(items[0], rest);
    }
  }

  /** One item written in front of a rendered tail adds its own count. */
  lemma RenderedItemStep(entry: (MdItem, nat), rest: string)
    requires ValidMdItem(entry.0)
    requires rest == [] || (MdKey(rest[0]) && IsDigit(rest[|rest| - 1]))
    ensures var s := MdItemText(entry.0) + NatToDigits(entry.1) + rest; s != [] && MdKey(s[0]) && IsDigit(s[|s| - 1])
    ensures CountMismatchEvents(MdItemText(entry.0) + NatToDigits(entry.1) + rest)
         == (if IsMismatchItem(entry) then 1 else 0) + CountMismatchEvents(rest)
  {
    var head := MdItemText(entry.0) + NatToDigits(entry.1);
    MismatchOfEntry(entry);
    if rest != [] {
      MismatchEventsSplit(head, rest);
      assert (head + rest)[|head + rest| - 1] == rest[|rest| - 1];
    } else {
      assert head + rest == head;
    }
  }

  /** A leading match count adds no event in front of a text that starts with a non-digit. */
  lemma MismatchAfterDigits(d: string, rest: string)
    requires d != [] && AllDigits(d)
    requires rest == [] || MdKey(rest[0])
    ensures CountMismatchEvents(d + rest) == CountMismatchEvents(rest)
  {
    DigitsMismatchCount(d);
    if rest != [] {
      assert IsDigit(d[|d| - 1]);
      MismatchEventsSplit(d, rest);
    } else {
      assert d + rest == d;
    }
  }

  /** On any MD string written from its items, the count is the number of single-base mismatches; deletions never count. */
  lemma MismatchOfRendered(first: nat, items: seq<(MdItem, nat)>)
    requires forall k :: 0 <= k < |items| ==> ValidMdItem(items[k].0)
    ensures CountMismatchEvents(RenderMd(first, items)) == CountIf(items, IsMismatchItem)
  {
    MismatchOfRenderedItems(items);
    MismatchAfterDigits(NatToDigits(first), RenderMdItems(items));
  }
}
