// Allele names written from their parts: `decompose` recovers the parts of
// `{prefix}{locus}{sep}{digit_fields}`, and `reduce_resolution` returns such
// a name whole when it has no more fields than the grammar allows and cuts it
// short otherwise.

module HlaNames {
  import opened Text
  import opened Outcomes
  import opened HlaAllele

  /** The parts of a name that `g` accepts: an optional prefix word, a locus
    * word, one allele separator and a digit-field word. */
  predicate WellFormedName(a: HlaAlleleName, g: Grammar)
  {
    && (a.prefix == [] || IsPrefixText(a.prefix))
    && IsLocusText(a.locus)
    && |a.sep| == 1 && IsAlleleSep(a.sep[0])
    && DigitFieldText(a.digitField, g)
  }

  /** No field separator is also a character of the trailing field, so a
    * separator always closes a digit group. */
  predicate SeparatorsApart(g: Grammar)
  {
    forall c :: c in g.seps ==> !IsFieldChar(c, g)
  }

  /** The default grammar and the two-field grammar keep their separators apart. */
  lemma DefaultSeparatorsApart()
    ensures SeparatorsApart(DefaultGrammar) && SeparatorsApart(TwoFieldGrammar)
  {
  }

  /** The grammar `g` with four fields allowed, as many as the default. */
  function Widest(g: Grammar): (w: Grammar)
    ensures w.seps == g.seps && w.suffixes == g.suffixes && w.resolution == 4
  {
    Grammar(g.seps, g.suffixes, 4)
  }

  // ---------------------------------------------------------------------------
  // Where the parts of a written name sit

  /** The name has a prefix, or its locus is not `HLA` in any case, so the
    * locus cannot be taken for the stem of a prefix. */
  predicate StemFree(a: HlaAlleleName)
  {
    a.prefix != [] || Upper(a.locus) != "HLA"
  }

  /** A valid locus is never `HLA`. */
  lemma ValidLocusNotStem(l: string)
    requires Upper(l) in ValidLoci
    ensures Upper(l) != "HLA"
  {
    OutsideValidLoci("HLA");
  }

  /** Writing a name with a digit field cut after `k` characters gives the
    * text of the whole name cut at the same place. */
  lemma WrittenCut(a: HlaAlleleName, k: nat)
    requires k <= |a.digitField|
    ensures var n := |a.prefix| + |a.locus| + |a.sep| + k;
            n <= |ToString(a)| && ToString(a)[..n] == ToString(a.(digitField := a.digitField[..k]))
  {
    var head := a.prefix + a.locus + a.sep;
    assert ToString(a) == head + a.digitField;
    assert ToString(a.(digitField := a.digitField[..k])) == head + a.digitField[..k];
    assert (head + a.digitField)[..|head| + k] == head + a.digitField[..k];
  }

  /** The text of a well-formed name is a parse of it from its start to its
    * end, whose parts are the name's. */
  lemma WrittenParse(a: HlaAlleleName, g: Grammar)
    requires WellFormedName(a, g)
    ensures var s := ToString(a);
            var p := |a.prefix|;
            var l := p + |a.locus|;
            && |s| == l + 1 + |a.digitField|
            && (p == 0 || PrefixAt(s, 0, p))
            && LocusAt(s, p, l) && IsAlleleSep(s[l])
            && DigitFieldAt(s, l + 1, |s|, g)
            && s[p..l] == a.locus
            && s[l + 1..|s|] == a.digitField
            && Parts(s, Span(0, p, l, |s|)) == a
  {
    var s := ToString(a);
    var p := |a.prefix|;
    var l := p + |a.locus|;
    SlicesOfFour(a.prefix, a.locus, a.sep, a.digitField);
    PrefixText(s, 0, p);
    LocusText(s, p, l);
    FieldAt(s, l + 1, |s|, g);
  }

  /** The four pieces of a concatenation are its slices at their offsets. */
  lemma SlicesOfFour(w: string, x: string, y: string, z: string)
    ensures var s := w + x + y + z;
            var i, j, k := |w|, |w| + |x|, |w| + |x| + |y|;
            && |s| == k + |z|
            && s[..i] == w && s[i..j] == x && s[j..k] == y && s[k..|s|] == z
  {
    var s := w + x + y + z;
    assert s[..|w|] == w;
    assert s[|w|..|w| + |x|] == x;
    assert s[|w| + |x|..|w| + |x| + |y|] == y;
    assert s[|w| + |x| + |y|..|s|] == z;
  }

  /** Cutting a slice short is slicing less. */
  lemma SliceOfSlice(s: string, i: nat, j: nat, n: nat)
    requires i <= j <= |s| && n <= j - i
    ensures s[i..j][..n] == s[i..i + n]
  {
  }

  /** A digit-field word in the text from `q` to `e`, where the text from `q`
    * on is `d`, is the leading part of `d` that long. */
  lemma FieldTextOfCut(s: string, q: nat, e: nat, d: string, g: Grammar)
    requires q <= e <= |s| && s[q..|s|] == d && DigitFieldAt(s, q, e, g)
    ensures e - q <= |d| && DigitFieldText(d[..e - q], g)
  {
    FieldText(s, q, e, g);
    SliceOfSlice(s, q, |s|, e - q);
  }

  /** A digit-field word cut out of the text is one in the text. */
  lemma FieldAt(s: string, a: nat, b: nat, g: Grammar)
    requires a <= b <= |s| && DigitFieldText(s[a..b], g)
    ensures DigitFieldAt(s, a, b, g)
  {
    var t := s[a..b];
    var c :| 0 <= c < |t| && GroupsAt(t, 0, c, g.seps, g.resolution - 1) && FieldCharsIn(t, c, |t|, g);
    GroupsFromWindow(s, a, b, a, a + c, g.seps, g.resolution - 1);
    FieldCharsShift(s, a, b, a + c, b, g);
  }

  /** No prefix word starts a text that starts with a locus followed by an
    * allele separator, unless that locus is `HLA` in some case. */
  lemma NoPrefixBeforeLocus(s: string, e: nat)
    requires LocusAt(s, 0, e) && e < |s| && IsAlleleSep(s[e])
    requires e == 3 ==> Upper(s[..3]) != "HLA"
    ensures PrefixEnd(s, 0) == None
  {
    assert IsLetter(s[0]);
    if e > 3 {
      assert IsLetter(s[3]) || IsDigit(s[3]);
    }
  }

  /** A maximal run: every character from `i` to `e` is in the class and the one at `e` is not. */
  lemma RunLengthExact(s: string, i: nat, e: nat, cl: CharClass)
    requires i <= e < |s|
    requires forall k :: i <= k < e ==> InClass(s[k], cl)
    requires !InClass(s[e], cl)
    ensures RunLength(s, i, cl) == e - i
  {
    RunLengthMax(s, i, e, cl);
    if e < i + RunLength(s, i, cl) {
      RunLengthAll(s, i, cl, e);
      assert false;
    }
  }

  /** The locus matcher tries a locus followed by an allele separator whole first. */
  lemma FirstLocusEnd(s: string, i: nat, e: nat)
    requires LocusAt(s, i, e) && e < |s| && IsAlleleSep(s[e])
    ensures LocusEnds(s, i) != [] && LocusEnds(s, i)[0] == e
  {
    assert !IsLetter(s[e]) && !IsDigit(s[e]);
    if LettersIn(s, i, e) {
      LetterLocusFirst(s, i, e);
    } else {
      DigitLocusFirst(s, i, e);
    }
  }

  /** A locus of letters only, ended by a character that is neither a letter nor a digit. */
  lemma LetterLocusFirst(s: string, i: nat, e: nat)
    requires i < e < |s| && LettersIn(s, i, e) && !IsLetter(s[e]) && !IsDigit(s[e])
    ensures LocusEnds(s, i) != [] && LocusEnds(s, i)[0] == e
  {
    RunLengthExact(s, i, e, Letters);
    LocusEndsFirstLetter(s, i, e - i);
  }

  /** A locus of letters and one final digit. */
  lemma DigitLocusFirst(s: string, i: nat, e: nat)
    requires i + 1 < e <= |s| && LettersIn(s, i, e - 1) && IsDigit(s[e - 1])
    ensures LocusEnds(s, i) != [] && LocusEnds(s, i)[0] == e
  {
    RunLengthExact(s, i, e - 1, Letters);
    LocusEndsFirstDigit(s, i, e - 1 - i);
  }

  /** After a letter run of length `n` followed by a digit, the first locus
    * end tried is one past that digit. */
  lemma LocusEndsFirstDigit(s: string, i: nat, n: nat)
    requires n == RunLength(s, i, Letters) && n > 0 && i + n < |s| && IsDigit(s[i + n])
    ensures LocusEnds(s, i) != [] && LocusEnds(s, i)[0] == i + n + 1
  {
  }

  /** After a letter run of length `n` not followed by a digit, the first
    * locus end tried is the end of the run. */
  lemma LocusEndsFirstLetter(s: string, i: nat, n: nat)
    requires n == RunLength(s, i, Letters) && n > 0 && !(i + n < |s| && IsDigit(s[i + n]))
    ensures LocusEnds(s, i) != [] && LocusEnds(s, i)[0] == i + n
  {
    CountdownFirst(i + n, i + 1);
  }

  lemma CountdownFirst(hi: nat, lo: nat)
    requires lo <= hi
    ensures Countdown(hi, lo) != [] && Countdown(hi, lo)[0] == hi
  {
  }

  /** The matcher's first candidate from the start of a text that holds a
    * prefix up to `p` (none when `p` is zero), a locus up to `l` and an allele
    * separator: that prefix and locus, with the first digit-field end tried. */
  lemma FirstCandidate(s: string, p: nat, l: nat, g: Grammar)
    requires PrefixEnd(s, 0) == if p == 0 then None else Some(p)
    requires LocusAt(s, p, l) && l < |s| && IsAlleleSep(s[l])
    requires DigitFieldEnds(s, l + 1, g) != []
    ensures SpansAt(s, 0, g) != []
    ensures SpansAt(s, 0, g)[0] == Span(0, p, l, DigitFieldEnds(s, l + 1, g)[0])
  {
    var es := DigitFieldEnds(s, l + 1, g);
    FirstLocusEnd(s, p, l);
    var les := LocusEnds(s, p);
    assert AfterLocus(s, 0, p, l, g) == TagEnds(0, p, l, es);
    assert AfterLoci(s, 0, p, les, g) == AfterLocus(s, 0, p, l, g) + AfterLoci(s, 0, p, les[1..], g);
    assert SpansFromLocus(s, 0, p, g)[0] == Span(0, p, l, es[0]);
    if p > 0 {
      SpansAtWithPrefix(s, p, g);
    } else {
      var ls := PrefixChoices(s, 0);
      assert ls == [0] && ls[1..] == [];
      assert SpansAt(s, 0, g) == SpansFromLocus(s, 0, 0, g) + SpansFromLoci(s, 0, [], g);
    }
  }

  /** Where the prefix matcher stops at the start of a written well-formed name. */
  lemma WrittenPrefixEnd(a: HlaAlleleName, g: Grammar)
    requires WellFormedName(a, g) && StemFree(a)
    ensures PrefixEnd(ToString(a), 0) == if a.prefix == [] then None else Some(|a.prefix|)
  {
    var s := ToString(a);
    WrittenParse(a, g);
    if a.prefix == [] {
      NoPrefixBeforeLocus(s, |a.locus|);
    } else {
      PrefixEndIff(s, 0, |a.prefix|);
    }
  }

  // ---------------------------------------------------------------------------
  // The greedy digit-field matcher on a whole digit-field word

  /** No separator from `q + 1` to `q + k`: no digit run up to `k` long is closed by one. */
  lemma {:induction false} NoSepAfterDigits(s: string, q: nat, k: nat, seps: string)
    requires forall j :: q < j <= q + k && j < |s| ==> s[j] !in seps
    ensures SepAfterDigits(s, q, k, seps) == []
    decreases k
  {
    if k > 0 {
      NoSepAfterDigits(s, q, k - 1, seps);
    }
  }

  /** A digit run closed by a separator at `c` is the only group from `q`. */
  lemma OneGroupEnd(s: string, q: nat, c: nat, g: Grammar)
    requires SeparatorsApart(g)
    requires q < c < |s| && DigitsIn(s, q, c) && s[c] in g.seps
    ensures GroupEnds(s, q, g.seps) == [c + 1]
  {
    assert !IsDigit(s[c]);
    RunLengthExact(s, q, c, Digits);
    NoSepAfterDigits(s, q, c - q - 1, g.seps);
  }

  /** From the start of a run of field characters that reaches the end of the text, no group starts. */
  lemma NoGroupInTrail(s: string, q: nat, g: Grammar)
    requires SeparatorsApart(g)
    requires q <= |s| && FieldCharsIn(s, q, |s|, g)
    ensures GroupEnds(s, q, g.seps) == []
  {
    NoSepAfterDigits(s, q, RunLength(s, q, Digits), g.seps);
  }

  /** The repetition from `q` when exactly one group starts there. */
  lemma RepeatAfterOneGroup(s: string, q: nat, e: nat, seps: string, m: nat)
    requires m > 0 && GroupEnds(s, q, seps) == [e]
    ensures RepeatEnds(s, q, seps, m) == RepeatEnds(s, e, seps, m - 1) + [q]
  {
    var es := [e];
    assert es[1..] == [];
    assert RepeatAll(s, es, seps, m - 1) == RepeatEnds(s, e, seps, m - 1) + RepeatAll(s, [], seps, m - 1);
  }

  /** The greedy repetition stops first where the groups of a whole digit-field word end. */
  lemma {:induction false} FirstRepeatEnd(s: string, q: nat, c: nat, g: Grammar, m: nat)
    requires SeparatorsApart(g)
    requires GroupsAt(s, q, c, g.seps, m) && c < |s| && FieldCharsIn(s, c, |s|, g)
    ensures RepeatEnds(s, q, g.seps, m) != [] && RepeatEnds(s, q, g.seps, m)[0] == c
    decreases m
  {
    if m > 0 {
      if q == c {
        NoGroupInTrail(s, q, g);
        assert RepeatEnds(s, q, g.seps, m) == RepeatAll(s, [], g.seps, m - 1) + [q];
      } else {
        var c1 :| q < c1 < c && DigitsIn(s, q, c1) && s[c1] in g.seps && GroupsAt(s, c1 + 1, c, g.seps, m - 1);
        OneGroupEnd(s, q, c1, g);
        RepeatAfterOneGroup(s, q, c1 + 1, g.seps, m);
        FirstRepeatEnd(s, c1 + 1, c, g, m - 1);
      }
    }
  }

  /** The trailing run of a whole digit-field word is first tried to the end of the text. */
  lemma FirstTrailEnd(s: string, c: nat, g: Grammar)
    requires c < |s| && FieldCharsIn(s, c, |s|, g)
    ensures TrailEnds(s, c, g) != [] && TrailEnds(s, c, g)[0] == |s|
  {
    RunLengthMax(s, c, |s|, FieldChars(g));
  }

  /** On a whole digit-field word the matcher first tries the end of the text. */
  lemma FirstDigitFieldEnd(s: string, q: nat, g: Grammar)
    requires SeparatorsApart(g)
    requires DigitFieldAt(s, q, |s|, g)
    ensures DigitFieldEnds(s, q, g) != [] && DigitFieldEnds(s, q, g)[0] == |s|
  {
    var c :| q <= c < |s| && GroupsAt(s, q, c, g.seps, g.resolution - 1) && FieldCharsIn(s, c, |s|, g);
    FirstRepeatEnd(s, q, c, g, g.resolution - 1);
    FirstTrailEnd(s, c, g);
    var rs := RepeatEnds(s, q, g.seps, g.resolution - 1);
    assert TrailsAfter(s, rs, g) == TrailEnds(s, c, g) + TrailsAfter(s, rs[1..], g);
  }

  // ---------------------------------------------------------------------------
  // decompose after writing

  /** The anchored match of a text that holds a prefix up to `p` (none when
    * `p` is zero), a locus up to `l`, an allele separator and a digit-field
    * word to its end is that whole parse. */
  lemma AnchoredWhole(s: string, p: nat, l: nat, g: Grammar)
    requires SeparatorsApart(g)
    requires PrefixEnd(s, 0) == if p == 0 then None else Some(p)
    requires LocusAt(s, p, l) && l < |s| && IsAlleleSep(s[l])
    requires DigitFieldAt(s, l + 1, |s|, g)
    ensures AnchoredMatch(s, g) == Some(Span(0, p, l, |s|))
  {
    FirstDigitFieldEnd(s, l + 1, g);
    FirstCandidate(s, p, l, g);
  }

  /** `decompose` of a written well-formed name matches the whole name, split
    * where it was written, and then checks the locus. */
  lemma DecomposeWritten(a: HlaAlleleName, g: Grammar)
    requires WellFormedName(a, g) && StemFree(a) && SeparatorsApart(g)
    ensures Decompose(ToString(a), g) == if Upper(a.locus) in ValidLoci then Ok(a) else Err(DecomposeError)
  {
    var sp := WrittenMatch(a, g);
    DecomposeOfMatch(ToString(a), sp, g);
  }

  /** The anchored match of a written well-formed name spans all of it and
    * splits it into the name's parts. */
  lemma WrittenMatch(a: HlaAlleleName, g: Grammar) returns (sp: Span)
    requires WellFormedName(a, g) && StemFree(a) && SeparatorsApart(g)
    ensures !IsBlank(ToString(a)) && AnchoredMatch(ToString(a), g) == Some(sp)
    ensures sp.locusStart < sp.locusEnd < sp.end <= |ToString(a)| && Parts(ToString(a), sp) == a
  {
    sp := WrittenAnchored(a, g);
    WrittenParse(a, g);
    WrittenNotBlank(a);
  }

  /** The anchored match of a written well-formed name spans all of it. */
  lemma WrittenAnchored(a: HlaAlleleName, g: Grammar) returns (sp: Span)
    requires WellFormedName(a, g) && StemFree(a) && SeparatorsApart(g)
    ensures sp == Span(0, |a.prefix|, |a.prefix| + |a.locus|, |ToString(a)|)
    ensures AnchoredMatch(ToString(a), g) == Some(sp)
  {
    var s := ToString(a);
    var p := |a.prefix|;
    var l := p + |a.locus|;
    WrittenParse(a, g);
    WrittenPrefixEnd(a, g);
    assert PrefixEnd(s, 0) == if p == 0 then None else Some(p);
    sp := Span(0, p, l, |s|);
    AnchoredWhole(s, p, l, g);
  }

  /** A name whose locus is a locus word is not blank when written. */
  lemma WrittenNotBlank(a: HlaAlleleName)
    requires IsLocusText(a.locus)
    ensures !IsBlank(ToString(a))
  {
    var s := ToString(a);
    assert s[|a.prefix|] == a.locus[0];
    assert !IsSpace(s[|a.prefix|]);
  }

  /** `decompose` of a text that is not blank, given its anchored match. */
  lemma DecomposeOfMatch(s: string, sp: Span, g: Grammar)
    requires !IsBlank(s) && AnchoredMatch(s, g) == Some(sp)
    ensures sp.locusStart < sp.locusEnd < sp.end <= |s|
    ensures Decompose(s, g) == if Upper(Parts(s, sp).locus) in ValidLoci then Ok(Parts(s, sp)) else Err(DecomposeError)
  {
  }

  /** `decompose` is a left inverse of writing a name: the four parts of a
    * well-formed name with a valid locus come back exactly. */
  lemma DecomposeLeftInverse(a: HlaAlleleName, g: Grammar)
    requires WellFormedName(a, g) && Upper(a.locus) in ValidLoci && SeparatorsApart(g)
    ensures Decompose(ToString(a), g) == Ok(a)
  {
    ValidLocusNotStem(a.locus);
    DecomposeWritten(a, g);
  }

  /** The same for the default grammar, with the name given by its parts:
    * `{prefix}{locus}{sep}{digit_fields}` decomposes back into them. */
  lemma DecomposeDefaultLeftInverse(p: string, l: string, sep: char, d: string)
    requires (p == [] || IsPrefixText(p)) && IsLocusText(l) && Upper(l) in ValidLoci
    requires IsAlleleSep(sep) && DigitFieldText(d, DefaultGrammar)
    ensures Decompose(p + l + [sep] + d, DefaultGrammar) == Ok(HlaAlleleName(p, l, d, [sep]))
  {
    var a := HlaAlleleName(p, l, d, [sep]);
    assert ToString(a) == p + l + [sep] + d;
    DefaultSeparatorsApart();
    DecomposeLeftInverse(a, DefaultGrammar);
  }

  /** A written well-formed name whose locus is not valid is refused. */
  lemma DecomposeRejectsLocus(a: HlaAlleleName, g: Grammar)
    requires WellFormedName(a, g) && StemFree(a) && Upper(a.locus) !in ValidLoci && SeparatorsApart(g)
    ensures Decompose(ToString(a), g) == Err(DecomposeError)
  {
    DecomposeWritten(a, g);
  }

  // ---------------------------------------------------------------------------
  // reduce_resolution after writing

  /** The search stops at the start of the text when a candidate starts there. */
  lemma LeftmostAtStart(s: string, g: Grammar)
    requires SpansAt(s, 0, g) != []
    ensures LeftmostFrom(s, 0, g) == Some(SpansAt(s, 0, g)[0])
  {
    assert CandidatesOf(s, g)(0) == SpansAt(s, 0, g);
  }

  /** A name with no more fields than the grammar allows comes back whole, with the warning. */
  lemma ReduceWholeName(a: HlaAlleleName, g: Grammar)
    requires WellFormedName(a, g) && StemFree(a) && SeparatorsApart(g)
    ensures ReduceResolution(ToString(a), g) == Ok(Reduction(ToString(a), true))
  {
    var s := ToString(a);
    var l := |a.prefix| + |a.locus|;
    WrittenParse(a, g);
    WrittenPrefixEnd(a, g);
    FirstDigitFieldEnd(s, l + 1, g);
    FirstCandidate(s, |a.prefix|, l, g);
    LeftmostAtStart(s, g);
    assert s[0..|s|] == s;
  }

  /** Groups allowed up to `big` times, read up to `m <= big` times: either all of
    * them fit, or `m` groups end at `e` and the next one's digits run from `e` to
    * the separator at `f`. */
  lemma {:induction false} GroupsSplit(s: string, q: nat, c: nat, seps: string, big: nat, m: nat) returns (e: nat, f: nat)
    requires GroupsAt(s, q, c, seps, big) && m <= big
    ensures GroupsAt(s, q, c, seps, m) || (GroupsAt(s, q, e, seps, m) && e < f < c && DigitsIn(s, e, f) && s[f] in seps)
    decreases m
  {
    e, f := q, q;
    if q < c {
      var c1 :| q < c1 < c && DigitsIn(s, q, c1) && s[c1] in seps && GroupsAt(s, c1 + 1, c, seps, big - 1);
      if m == 0 {
        e, f := q, c1;
      } else {
        e, f := GroupsSplit(s, c1 + 1, c, seps, big - 1, m - 1);
        if GroupsAt(s, c1 + 1, c, seps, m - 1) {
          assert GroupsAt(s, q, c, seps, m);
        } else {
          assert DigitsIn(s, q, c1) && s[c1] in seps && GroupsAt(s, c1 + 1, e, seps, m - 1);
          assert GroupsAt(s, q, e, seps, m);
        }
      }
    }
  }

  /** A digit-field word of the four-field grammar that `g` does not accept
    * whole still starts with a word that `g` accepts. */
  lemma ShorterDigitField(s: string, q: nat, g: Grammar) returns (f: nat)
    requires DigitFieldAt(s, q, |s|, Widest(g))
    requires !DigitFieldAt(s, q, |s|, g)
    ensures q < f < |s| && DigitFieldAt(s, q, f, g)
  {
    var c :| q <= c < |s| && GroupsAt(s, q, c, g.seps, 3) && FieldCharsIn(s, c, |s|, Widest(g));
    assert FieldCharsIn(s, c, |s|, g);
    var e;
    e, f := GroupsSplit(s, q, c, g.seps, 3, g.resolution - 1);
    assert !GroupsAt(s, q, c, g.seps, g.resolution - 1);
    assert FieldCharsIn(s, e, f, g);
  }

  /** Reducing a text that holds a prefix up to `p` (none when `p` is zero), a
    * locus up to `l`, an allele separator and a digit-field word of the
    * four-field grammar that `g` does not accept whole: a leading part of
    * the text up to a shorter digit-field word of `g`, without the warning. */
  lemma ReduceCut(s: string, p: nat, l: nat, g: Grammar) returns (e: nat)
    requires PrefixEnd(s, 0) == if p == 0 then None else Some(p)
    requires LocusAt(s, p, l) && l < |s| && IsAlleleSep(s[l])
    requires DigitFieldAt(s, l + 1, |s|, Widest(g)) && !DigitFieldAt(s, l + 1, |s|, g)
    ensures l + 1 < e < |s| && DigitFieldAt(s, l + 1, e, g)
    ensures ReduceResolution(s, g) == Ok(Reduction(s[..e], false))
  {
    e := CutCandidate(s, p, l, g);
    LeftmostAtStart(s, g);
    ReduceOfLeftmost(s, Span(0, p, l, e), g);
  }

  /** The first candidate from the start of such a text ends inside its digit fields. */
  lemma CutCandidate(s: string, p: nat, l: nat, g: Grammar) returns (e: nat)
    requires PrefixEnd(s, 0) == if p == 0 then None else Some(p)
    requires LocusAt(s, p, l) && l < |s| && IsAlleleSep(s[l])
    requires DigitFieldAt(s, l + 1, |s|, Widest(g)) && !DigitFieldAt(s, l + 1, |s|, g)
    ensures l + 1 < e < |s| && DigitFieldAt(s, l + 1, e, g)
    ensures SpansAt(s, 0, g) != [] && SpansAt(s, 0, g)[0] == Span(0, p, l, e)
  {
    e := FirstShorterEnd(s, l + 1, g);
    assert l + 1 < e < |s| && DigitFieldAt(s, l + 1, e, g);
    FirstCandidate(s, p, l, g);
    assert SpansAt(s, 0, g) != [] && SpansAt(s, 0, g)[0] == Span(0, p, l, e);
  }

  /** The first digit-field end the matcher tries on a word of the four-field
    * grammar that `g` does not accept whole comes before the end of the text. */
  lemma FirstShorterEnd(s: string, q: nat, g: Grammar) returns (e: nat)
    requires q <= |s|
    requires DigitFieldAt(s, q, |s|, Widest(g)) && !DigitFieldAt(s, q, |s|, g)
    ensures DigitFieldEnds(s, q, g) != [] && e == DigitFieldEnds(s, q, g)[0]
    ensures q < e < |s| && DigitFieldAt(s, q, e, g)
  {
    var f := ShorterDigitField(s, q, g);
    DigitFieldEndsIff(s, q, g, f);
    var ends := DigitFieldEnds(s, q, g);
    assert f in ends;
    e := ends[0];
    DigitFieldEndsIff(s, q, g, e);
    assert DigitFieldAt(s, q, e, g);
    assert e != |s|;
  }

  /** `reduce_resolution` of a text, given the leftmost candidate, when it starts at the beginning. */
  lemma ReduceOfLeftmost(s: string, sp: Span, g: Grammar)
    requires LeftmostFrom(s, 0, g) == Some(sp) && sp.start == 0 && sp.end <= |s|
    ensures ReduceResolution(s, g) == Ok(Reduction(s[..sp.end], sp.end == |s|))
  {
    assert s[0..sp.end] == s[..sp.end];
    if sp.end < |s| {
      assert |s[..sp.end]| < |s|;
    }
  }

  /** A name with more fields than the grammar allows comes back strictly
    * shorter, without the warning: the same prefix, locus and separator with
    * the first `k` characters of its digit fields, a word the grammar accepts. */
  lemma ReduceLongerName(a: HlaAlleleName, g: Grammar) returns (k: nat)
    requires WellFormedName(a, Widest(g)) && StemFree(a)
    requires !DigitFieldText(a.digitField, g)
    ensures 0 < k < |a.digitField| && DigitFieldText(a.digitField[..k], g)
    ensures ReduceResolution(ToString(a), g) == Ok(Reduction(ToString(a.(digitField := a.digitField[..k])), false))
  {
    k := ReducedFields(a, g);
    WrittenCut(a, k);
    ReductionTo(ToString(a), |a.prefix| + |a.locus| + 1 + k, ToString(a.(digitField := a.digitField[..k])), g);
  }

  /** A reduction to a leading part of a text is a reduction to any text equal to that part. */
  lemma ReductionTo(s: string, n: nat, t: string, g: Grammar)
    requires n <= |s| && s[..n] == t
    requires ReduceResolution(s, g) == Ok(Reduction(s[..n], false))
    ensures ReduceResolution(s, g) == Ok(Reduction(t, false))
  {
  }

  /** How many characters of the digit fields `reduce_resolution` keeps of a
    * written name with too many fields. */
  lemma ReducedFields(a: HlaAlleleName, g: Grammar) returns (k: nat)
    requires WellFormedName(a, Widest(g)) && StemFree(a)
    requires !DigitFieldText(a.digitField, g)
    ensures 0 < k < |a.digitField| && DigitFieldText(a.digitField[..k], g)
    ensures |a.sep| == 1
    ensures ReduceResolution(ToString(a), g) == Ok(Reduction(ToString(a)[..|a.prefix| + |a.locus| + 1 + k], false))
  {
    WrittenParse(a, Widest(g));
    WrittenPrefixEnd(a, Widest(g));
    var s := ToString(a);
    var l := |a.prefix| + |a.locus|;
    k := ReduceCutFields(s, |a.prefix|, l, a.digitField, g);
    assert s[..l + 1 + k] == ToString(a)[..|a.prefix| + |a.locus| + 1 + k];
  }

  /** Reducing a text that holds a prefix up to `p` (none when `p` is zero), a
    * locus up to `l`, an allele separator and then `d`, a digit-field word of
    * the four-field grammar that `g` does not accept whole: the text up to a
    * leading part of `d` that `g` accepts, without the warning. */
  lemma ReduceCutFields(s: string, p: nat, l: nat, d: string, g: Grammar) returns (k: nat)
    requires PrefixEnd(s, 0) == if p == 0 then None else Some(p)
    requires LocusAt(s, p, l) && l < |s| && IsAlleleSep(s[l])
    requires s[l + 1..|s|] == d && DigitFieldAt(s, l + 1, |s|, Widest(g)) && !DigitFieldText(d, g)
    ensures 0 < k < |d| && DigitFieldText(d[..k], g)
    ensures ReduceResolution(s, g) == Ok(Reduction(s[..l + 1 + k], false))
  {
    NotWholeField(s, l + 1, d, g);
    var e := ReduceCut(s, p, l, g);
    k := CutLength(s, l + 1, e, d, g);
    assert s[..l + 1 + k] == s[..e];
  }

  /** Digit fields the grammar does not accept are no digit-field word in the text. */
  lemma NotWholeField(s: string, q: nat, d: string, g: Grammar)
    requires q <= |s| && s[q..|s|] == d && !DigitFieldText(d, g)
    ensures !DigitFieldAt(s, q, |s|, g)
  {
    if DigitFieldAt(s, q, |s|, g) {
      FieldText(s, q, |s|, g);
      assert false;
    }
  }

  /** A cut at `e` inside digit fields `d` that start at `q` keeps `e - q` of
    * their characters, a word the grammar accepts. */
  lemma CutLength(s: string, q: nat, e: nat, d: string, g: Grammar) returns (k: nat)
    requires q < e < |s| && s[q..|s|] == d && DigitFieldAt(s, q, e, g)
    ensures k == e - q && 0 < k < |d| && DigitFieldText(d[..k], g)
    ensures s[..q + k] == s[..e]
  {
    k := e - q;
    FieldTextOfCut(s, q, e, d, g);
  }
}
