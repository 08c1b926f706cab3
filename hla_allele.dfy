// HLA allele names: the pattern configuration, anchored decomposition and
// unanchored resolution reduction.
//
// The name grammar is `prefix? locus sep digit_fields` with
//   prefix       = `(:?HLA|hla)[-_]`
//   locus        = `[a-zA-Z]+[0-9]?`
//   sep          = `[\*_]`
//   digit_fields = `(?:[0-9]+[SEPS]){0,R-1}[0-9 SUFFIXES suffixes]+`
// where the separator set, the suffix letters and R are parameters.  Regular
// expression matching is modelled by listing the candidate parses in the order
// in which a backtracking matcher tries them: a greedy repetition tries the
// longest run first, an optional part is tried present before absent.

module HlaAllele {
  import opened Text
  import opened Outcomes

  /** The single-letter loci: the classical and non-classical class I genes and pseudogenes. */
  const SingleLetterLoci: seq<string> := [
    "A", "B", "C", "E", "F", "G", "H", "J", "K", "L", "N", "P", "R", "S", "T",
    "U", "V", "W", "X", "Y", "Z"
  ]

  /** The class II loci, all of them spelled with a leading `D`. */
  const ClassTwoLoci: seq<string> := [
    "DRA", "DRB1", "DRB2", "DRB3", "DRB4", "DRB5", "DRB6", "DRB7", "DRB8", "DRB9",
    "DQA1", "DQB1", "DQA2", "DQB2", "DQB3",
    "DOA", "DOB", "DMA", "DMB",
    "DPA1", "DPB1", "DPA2", "DPB2", "DPA3"
  ]

  /** The loci a decomposed name may carry, compared after upper-casing, in the order listed. */
  const ValidLoci: seq<string> := SingleLetterLoci + ClassTwoLoci

  /** A valid locus is one letter long or starts with `D`. */
  lemma OutsideValidLoci(x: string)
    requires |x| != 1 && (x == [] || x[0] != 'D')
    ensures x !in ValidLoci
  {
    OutsideSingleLetterLoci(x);
    OutsideClassTwoLoci(x);
  }

  lemma OutsideSingleLetterLoci(x: string)
    requires |x| != 1
    ensures x !in SingleLetterLoci
  {
  }

  lemma OutsideClassTwoLoci(x: string)
    requires x == [] || x[0] != 'D'
    ensures x !in ClassTwoLoci
  {
  }

  /** The number of digit fields a name is matched to. */
  type Resolution = r: int | 1 <= r <= 4 witness 4

  /** The parameters of the grammar: the characters that separate digit fields,
    * the expression-suffix letters (accepted in both cases) and the resolution. */
  datatype Grammar = Grammar(seps: string, suffixes: string, resolution: Resolution)

  /** A character of the last digit field: a digit or a suffix letter in either case. */
  predicate IsFieldChar(c: char, g: Grammar)
  {
    IsDigit(c) || c in g.suffixes || ToUpper(c) in g.suffixes
  }

  /** The field characters are those of the class `[0-9 SUFFIXES suffixes]`. */
  lemma FieldCharClass(c: char, g: Grammar)
    ensures IsFieldChar(c, g) <==> IsDigit(c) || c in g.suffixes + Lower(g.suffixes)
  {
    var low := Lower(g.suffixes);
    if c in low {
      var j :| 0 <= j < |low| && low[j] == c;
      if 'A' <= g.suffixes[j] <= 'Z' {
        assert ToUpper(c) == g.suffixes[j];
      }
    }
    if ToUpper(c) in g.suffixes && c !in g.suffixes {
      var j :| 0 <= j < |g.suffixes| && g.suffixes[j] == ToUpper(c);
      assert low[j] == c;
    }
  }

  predicate IsAlleleSep(c: char) { c == '*' || c == '_' }

  // ---------------------------------------------------------------------------
  // The pattern configuration

  const DefaultPrefix: string := "(:?HLA|hla)[-_]"
  const DefaultLocus: string := "[a-zA-Z]+[0-9]?"
  const DefaultDigitFieldSep: seq<string> := [":", "_"]
  const DefaultExprSuffix: seq<string> := ["N", "L", "S", "C", "A", "Q"]
  const DefaultResolution: int := 4
  const DefaultSep: string := "[\\*_]"

  /** The names of the string-valued fields, in declaration order. */
  const StringFieldNames: seq<string> := ["prefix", "locus", "digit_fields", "sep"]

  /** `1` below the range, `4` above it. */
  function Clamp(r: int): Resolution
  {
    if r < 1 then 1 else if r > 4 then 4 else r
  }

  /** The digit-field pattern text for the given separators, suffixes and resolution. */
  function DigitFieldsText(seps: seq<string>, suffixes: seq<string>, resolution: Resolution): string
  {
    "(?:[0-9]+[" + Join(seps) + "])"
    + "{0," + NatToDigits(resolution - 1) + "}"
    + "[0-9" + Join(suffixes) + Lower(Join(suffixes)) + "]+"
  }

  /** The grammar of a pattern built with every default. */
  const DefaultGrammar: Grammar := Grammar(":_", "NLSCAQ", 4)

  /** The grammar of a pattern built with resolution 2 and the other defaults. */
  const TwoFieldGrammar: Grammar := Grammar(":_", "NLSCAQ", 2)

  /** The default separators and suffixes join to the strings of `DefaultGrammar`. */
  lemma DefaultGrammarOf()
    ensures Grammar(Join(DefaultDigitFieldSep), Join(DefaultExprSuffix), Clamp(DefaultResolution)) == DefaultGrammar
    ensures Grammar(Join(DefaultDigitFieldSep), Join(DefaultExprSuffix), Clamp(2)) == TwoFieldGrammar
  {
    assert Join(DefaultDigitFieldSep) == ":_";
    assert Join(DefaultExprSuffix) == "NLSCAQ";
  }

  /** The suffix class of the default digit-field text, in both cases. */
  lemma DefaultSuffixClass()
    ensures "[0-9" + Join(DefaultExprSuffix) + Lower(Join(DefaultExprSuffix)) + "]+" == "[0-9NLSCAQnlscaq]+"
  {
    var sufs := Join(DefaultExprSuffix);
    assert sufs == "NLSCAQ" by {
      DefaultGrammarOf();
    }
    assert Lower(sufs) == "nlscaq";
  }

  /** With the default separators and suffixes, the digit-field text is the
    * familiar pattern. */
  lemma DefaultDigitFieldsText()
    ensures DigitFieldsText(DefaultDigitFieldSep, DefaultExprSuffix, Clamp(DefaultResolution))
         == "(?:[0-9]+[:_])" + "{0,3}" + "[0-9NLSCAQnlscaq]+"
  {
    DefaultSeparatorGroup();
    DefaultRepeatBound();
    DefaultSuffixClass();
  }

  /** The repeated group of the default digit-field text. */
  lemma DefaultSeparatorGroup()
    ensures "(?:[0-9]+[" + Join(DefaultDigitFieldSep) + "])" == "(?:[0-9]+[:_])"
  {
    assert Join(DefaultDigitFieldSep) == ":_" by {
      DefaultGrammarOf();
    }
  }

  /** The default resolution allows up to three separated fields before the last. */
  lemma DefaultRepeatBound()
    ensures "{0," + NatToDigits(Clamp(DefaultResolution) - 1) + "}" == "{0,3}"
  {
    assert Clamp(DefaultResolution) - 1 == 3;
    assert NatToDigits(3) == "3";
  }

  /** A field's pattern wrapped in a group named after the field, surrounding whitespace removed. */
  function NamedGroup(name: string, v: string): string
  {
    "(?P<" + name + ">" + Strip(v) + ")"
  }

  /** The index of the first blank string among `vs`, if any. */
  function FirstBlank(vs: seq<string>): (r: Option<nat>)
    ensures r.None? <==> forall k :: 0 <= k < |vs| ==> !IsBlank(vs[k])
    ensures r.Some? ==> r.value < |vs| && IsBlank(vs[r.value]) && forall k :: 0 <= k < r.value ==> !IsBlank(vs[k])
  {
    if vs == [] then None
    else if IsBlank(vs[0]) then Some(0)
    else match FirstBlank(vs[1..])
      case None => None
      case Some(k) => Some(k + 1)
  }

  /** The pattern configuration: regular-expression text for each part of a name,
    * the digit-field separators, the expression suffixes and the resolution. */
  class AllelePattern {
    var prefix: string
    var locus: string
    var digitFields: string
    var digitFieldSep: seq<string>
    var exprSuffix: seq<string>
    var resolution: int
    var sep: string

    /** The string-valued fields, in declaration order. */
    function StringFields(): seq<string>
      reads this
    {
      [prefix, locus, digitFields, sep]
    }

    /** The grammar the configured parts describe, once the resolution is in range. */
    function GrammarOf(): Grammar
      reads this
      requires 1 <= resolution <= 4
    {
      Grammar(Join(digitFieldSep), Join(exprSuffix), resolution)
    }

    /** The dataclass initialiser, before its post-initialisation step; `digit_fields` is not set yet. */
    constructor (prefix: string, locus: string, digitFieldSep: seq<string>, exprSuffix: seq<string>, resolution: int, sep: string)
      ensures this.prefix == prefix && this.locus == locus && this.digitFields == []
      ensures this.digitFieldSep == digitFieldSep && this.exprSuffix == exprSuffix
      ensures this.resolution == resolution && this.sep == sep
    {
      this.prefix := prefix;
      this.locus := locus;
      this.digitFields := [];
      this.digitFieldSep := digitFieldSep;
      this.exprSuffix := exprSuffix;
      this.resolution := resolution;
      this.sep := sep;
    }

    /** Brings the resolution into [1, 4]. */
    method ValidateResolution()
      modifies this`resolution
      ensures old(resolution) < 1 ==> resolution == 1
      ensures old(resolution) > 4 ==> resolution == 4
      ensures 1 <= old(resolution) <= 4 ==> resolution == old(resolution)
    {
      if resolution < 1 {
        resolution := 1;
      }
      if resolution > 4 {
        resolution := 4;
      }
    }

    /** Reports the first string field that is empty or only whitespace. */
    method ValidateFields() returns (failure: Option<Error>)
      ensures failure.None? <==> forall k :: 0 <= k < 4 ==> !IsBlank(StringFields()[k])
      ensures failure.Some? ==>
                && FirstBlank(StringFields()).Some?
                && failure.value == InvalidPatternConfig(StringFieldNames[FirstBlank(StringFields()).value])
    {
      var values := StringFields();
      var i := 0;
      while i < |values|
        invariant 0 <= i <= |values|
        invariant forall j :: 0 <= j < i ==> !IsBlank(values[j])
      {
        if IsBlank(values[i]) {
          return Some(InvalidPatternConfig(StringFieldNames[i]));
        }
        i := i + 1;
      }
      return None;
    }

    /** `setattr(self, name, v)` for the string fields. */
    method SetField(k: nat, v: string)
      requires k < 4
      modifies this`prefix, this`locus, this`digitFields, this`sep
      ensures StringFields() == old(StringFields())[k := v]
    {
      if k == 0 {
        prefix := v;
      } else if k == 1 {
        locus := v;
      } else if k == 2 {
        digitFields := v;
      } else {
        sep := v;
      }
    }

    /** Wraps every string field in a group named after the field. */
    method AddNameToGroupMatch()
      modifies this`prefix, this`locus, this`digitFields, this`sep
      ensures forall k :: 0 <= k < 4 ==> StringFields()[k] == NamedGroup(StringFieldNames[k], old(StringFields())[k])
    {
      var i := 0;
      while i < 4
        invariant 0 <= i <= 4
        invariant forall k :: 0 <= k < 4 ==>
                    StringFields()[k] == if k < i then NamedGroup(StringFieldNames[k], old(StringFields())[k]) else old(StringFields())[k]
      {
        var v := StringFields()[i];
        SetField(i, NamedGroup(StringFieldNames[i], v));
        i := i + 1;
      }
    }

    /** `__post_init__`: clamps the resolution, builds the digit-field pattern,
      * rejects a blank string field and names every group. */
    method PostInit() returns (failure: Option<Error>)
      modifies this
      ensures resolution == Clamp(old(resolution))
      ensures digitFieldSep == old(digitFieldSep) && exprSuffix == old(exprSuffix)
      ensures var built := DigitFieldsText(digitFieldSep, exprSuffix, Clamp(old(resolution)));
              var before := [old(prefix), old(locus), built, old(sep)];
              && (failure.None? <==> forall k :: 0 <= k < 4 ==> !IsBlank(before[k]))
              && (failure.Some? ==> FirstBlank(before).Some? && failure.value == InvalidPatternConfig(StringFieldNames[FirstBlank(before).value]))
              && (failure.None? ==> forall k :: 0 <= k < 4 ==> StringFields()[k] == NamedGroup(StringFieldNames[k], before[k]))
    {
      ValidateResolution();
      digitFields := DigitFieldsText(digitFieldSep, exprSuffix, resolution);
      ghost var before := [old(prefix), old(locus), DigitFieldsText(digitFieldSep, exprSuffix, Clamp(old(resolution))), old(sep)];
      assert StringFields() == before;
      failure := ValidateFields();
      assert StringFields() == before;
      assert failure.None? <==> forall k :: 0 <= k < 4 ==> !IsBlank(before[k]);
      if failure.None? {
        AddNameToGroupMatch();
        assert forall k :: 0 <= k < 4 ==> StringFields()[k] == NamedGroup(StringFieldNames[k], before[k]);
      }
    }
  }

  /** `HLAllelePattern(...)`: the configuration, or the error raised while building it. */
  method NewAllelePattern(prefix: string, locus: string, digitFieldSep: seq<string>, exprSuffix: seq<string>, resolution: int, sep: string)
    returns (r: Result<AllelePattern>)
    ensures r.Ok? <==> !IsBlank(prefix) && !IsBlank(locus) && !IsBlank(sep)
    ensures r.Err? ==> r.error.InvalidPatternConfig?
    ensures r.Ok? ==>
              && fresh(r.value)
              && r.value.resolution == Clamp(resolution)
              && r.value.GrammarOf() == Grammar(Join(digitFieldSep), Join(exprSuffix), Clamp(resolution))
              && r.value.prefix == NamedGroup("prefix", prefix)
              && r.value.locus == NamedGroup("locus", locus)
              && r.value.digitFields == NamedGroup("digit_fields", DigitFieldsText(digitFieldSep, exprSuffix, Clamp(resolution)))
              && r.value.sep == NamedGroup("sep", sep)
  {
    var ap := new AllelePattern(prefix, locus, digitFieldSep, exprSuffix, resolution, sep);
    var failure := ap.PostInit();
    DigitFieldsTextNotBlank(digitFieldSep, exprSuffix, Clamp(resolution));
    ghost var before := [prefix, locus, DigitFieldsText(digitFieldSep, exprSuffix, Clamp(resolution)), sep];
    if failure.Some? {
      ghost var k := FirstBlank(before).value;
      assert IsBlank(before[k]) && k != 2;
      return Err(failure.value);
    }
    assert !IsBlank(before[0]) && !IsBlank(before[1]) && !IsBlank(before[3]);
    assert ap.prefix == NamedGroup(StringFieldNames[0], before[0]);
    assert ap.locus == NamedGroup(StringFieldNames[1], before[1]);
    assert ap.digitFields == NamedGroup(StringFieldNames[2], before[2]);
    assert ap.sep == NamedGroup(StringFieldNames[3], before[3]);
    return Ok(ap);
  }

  /** The built digit-field pattern always has content, so it never fails validation. */
  lemma DigitFieldsTextNotBlank(seps: seq<string>, suffixes: seq<string>, resolution: Resolution)
    ensures !IsBlank(DigitFieldsText(seps, suffixes, resolution))
  {
    assert DigitFieldsText(seps, suffixes, resolution)[0] == '(';
  }

  // ---------------------------------------------------------------------------
  // The languages of the parts, stated directly on positions of the text

  /** `HLA` (or `hla` when `lower`) at `i`. */
  predicate StemAt(s: string, i: nat, lower: bool)
  {
    && i + 3 <= |s|
    && s[i] == (if lower then 'h' else 'H')
    && s[i + 1] == (if lower then 'l' else 'L')
    && s[i + 2] == (if lower then 'a' else 'A')
  }

  predicate IsPrefixSep(c: char) { c == '-' || c == '_' }

  predicate LettersIn(s: string, a: nat, b: nat)
    requires b <= |s|
  {
    forall k :: a <= k < b ==> IsLetter(s[k])
  }

  predicate DigitsIn(s: string, a: nat, b: nat)
    requires b <= |s|
  {
    forall k :: a <= k < b ==> IsDigit(s[k])
  }

  predicate FieldCharsIn(s: string, a: nat, b: nat, g: Grammar)
    requires b <= |s|
  {
    forall k :: a <= k < b ==> IsFieldChar(s[k], g)
  }

  /** `s[a..b]` is a word of `(:?HLA|hla)[-_]`. */
  predicate PrefixAt(s: string, a: nat, b: nat)
  {
    && a + 4 <= b <= |s| && IsPrefixSep(s[b - 1])
    && ((b == a + 5 && s[a] == ':' && StemAt(s, a + 1, false)) || (b == a + 4 && (StemAt(s, a, false) || StemAt(s, a, true))))
  }

  /** `s[a..b]` is a word of `[a-zA-Z]+[0-9]?`. */
  predicate LocusAt(s: string, a: nat, b: nat)
  {
    a < b <= |s| && (LettersIn(s, a, b) || (a + 1 < b && LettersIn(s, a, b - 1) && IsDigit(s[b - 1])))
  }

  /** `s[a..b]` is a word of `(?:[0-9]+[SEPS]){0,m}`: empty, or digits up to a
    * separator at `c`, then a word of `m - 1` groups. */
  predicate GroupsAt(s: string, a: nat, b: nat, seps: string, m: nat)
    decreases m
  {
    a <= b <= |s| &&
    (a == b || (m > 0 && exists c :: a < c < b && DigitsIn(s, a, c) && s[c] in seps && GroupsAt(s, c + 1, b, seps, m - 1)))
  }

  /** `s[a..b]` is a word of the digit-field part: up to resolution-1 groups of digits
    * each closed by a separator, then a non-empty run of digits and suffix letters. */
  predicate DigitFieldAt(s: string, a: nat, b: nat, g: Grammar)
  {
    a < b <= |s| && exists c :: a <= c < b && GroupsAt(s, a, c, g.seps, g.resolution - 1) && FieldCharsIn(s, c, b, g)
  }

  /** The words of the prefix, the locus and the digit fields, as strings. */
  predicate IsPrefixText(t: string) { PrefixAt(t, 0, |t|) }

  predicate IsLocusText(t: string) { LocusAt(t, 0, |t|) }

  predicate DigitFieldText(t: string, g: Grammar) { DigitFieldAt(t, 0, |t|, g) }

  /** The prefix words are the six spellings `:HLA-`, `:HLA_`, `HLA-`, `HLA_`, `hla-` and `hla_`. */
  lemma PrefixWords(t: string)
    ensures IsPrefixText(t) <==> t in [":HLA-", ":HLA_", "HLA-", "HLA_", "hla-", "hla_"]
  {
    if IsPrefixText(t) {
      if |t| == 5 {
        assert t == [':', 'H', 'L', 'A', t[4]];
      } else if StemAt(t, 0, false) {
        assert t == ['H', 'L', 'A', t[3]];
      } else {
        assert t == ['h', 'l', 'a', t[3]];
      }
    }
  }

  /** Where a candidate parse places the parts: the prefix is `s[start..locusStart]`
    * (empty when absent), the locus `s[locusStart..locusEnd]`, the separator the
    * single character at `locusEnd`, and the digit fields run up to `end`. */
  datatype Span = Span(start: nat, locusStart: nat, locusEnd: nat, end: nat)

  /** `s[sp.start..sp.end]` is a word of the grammar, split as `sp` says. */
  predicate IsParse(s: string, sp: Span, g: Grammar)
  {
    && sp.start <= sp.locusStart < sp.locusEnd < sp.end <= |s|
    && (sp.locusStart == sp.start || PrefixAt(s, sp.start, sp.locusStart))
    && LocusAt(s, sp.locusStart, sp.locusEnd)
    && IsAlleleSep(s[sp.locusEnd])
    && DigitFieldAt(s, sp.locusEnd + 1, sp.end, g)
  }

  // ---------------------------------------------------------------------------
  // The matcher: candidate end positions, in the order they are tried

  /** The character classes the matcher's greedy runs range over. */
  datatype CharClass = Letters | Digits | FieldChars(g: Grammar)

  predicate InClass(c: char, cl: CharClass)
  {
    match cl
    case Letters => IsLetter(c)
    case Digits => IsDigit(c)
    case FieldChars(g) => IsFieldChar(c, g)
  }

  /** The number of consecutive characters from `i` on that satisfy `p`. */
  function RunLength(s: string, i: nat, cl: CharClass): (n: nat)
    ensures n > 0 ==> i + n <= |s|
    ensures i + n < |s| ==> !InClass(s[i + n], cl)
    decreases |s| - i
  {
    if i >= |s| || !InClass(s[i], cl) then 0 else 1 + RunLength(s, i + 1, cl)
  }

  /** `hi, hi-1, ..., lo`. */
  function Countdown(hi: nat, lo: nat): (r: seq<nat>)
    ensures forall e :: e in r <==> lo <= e <= hi
    decreases hi - lo + 1
  {
    if hi < lo then [] else if hi == lo then [hi] else [hi] + Countdown(hi - 1, lo)
  }

  /** The end of the stem `:HLA`, `HLA` or `hla` at `i`; at most one of them can start there. */
  function PrefixStem(s: string, i: nat): Option<nat>
  {
    if i + 4 <= |s| && s[i] == ':' && StemAt(s, i + 1, false) then Some(i + 4)
    else if StemAt(s, i, false) || StemAt(s, i, true) then Some(i + 3)
    else None
  }

  /** The end of a prefix `(:?HLA|hla)[-_]` starting at `i`, if there is one. */
  function PrefixEnd(s: string, i: nat): (r: Option<nat>)
    ensures r.Some? ==> i < r.value <= |s|
  {
    match PrefixStem(s, i)
    case None => None
    case Some(j) => if j < |s| && IsPrefixSep(s[j]) then Some(j + 1) else None
  }

  /** Where the locus may start: after the prefix (tried first), or right at `i`. */
  function PrefixChoices(s: string, i: nat): seq<nat>
  {
    match PrefixEnd(s, i)
    case Some(p) => [p, i]
    case None => [i]
  }

  /** The ends of `[a-zA-Z]+[0-9]?` from `i`: the longest letter run first, with
    * the digit before without it; a shorter run is followed by a letter, so the
    * optional digit can only follow the longest. */
  function LocusEnds(s: string, i: nat): seq<nat>
  {
    var n := RunLength(s, i, Letters);
    if n == 0 then []
    else (if i + n < |s| && IsDigit(s[i + n]) then [i + n + 1] else []) + Countdown(i + n, i + 1)
  }

  /** The ends of `[0-9]+[SEPS]` where the digit run is `k` long or shorter, longest first. */
  function SepAfterDigits(s: string, q: nat, k: nat, seps: string): seq<nat>
  {
    if k == 0 then []
    else (if q + k < |s| && s[q + k] in seps then [q + k + 1] else []) + SepAfterDigits(s, q, k - 1, seps)
  }

  /** The ends of one group `[0-9]+[SEPS]` from `q`. */
  function GroupEnds(s: string, q: nat, seps: string): seq<nat>
  {
    SepAfterDigits(s, q, RunLength(s, q, Digits), seps)
  }

  /** The ends of the greedy repetition `(?:[0-9]+[SEPS]){0,m}` from `q`: one more
    * group first, then stopping at `q`. */
  function RepeatEnds(s: string, q: nat, seps: string, m: nat): seq<nat>
    decreases m, 0
  {
    if m == 0 then [q] else RepeatAll(s, GroupEnds(s, q, seps), seps, m - 1) + [q]
  }

  /** The repetition's ends from each of `es` in turn. */
  function RepeatAll(s: string, es: seq<nat>, seps: string, m: nat): seq<nat>
    decreases m, 1, |es|
  {
    if es == [] then [] else RepeatEnds(s, es[0], seps, m) + RepeatAll(s, es[1..], seps, m)
  }

  /** The ends of the trailing run `[0-9 suffixes]+` from `q`, longest first. */
  function TrailEnds(s: string, q: nat, g: Grammar): seq<nat>
  {
    Countdown(q + RunLength(s, q, FieldChars(g)), q + 1)
  }

  /** The trailing-run ends after each of `qs` in turn. */
  function TrailsAfter(s: string, qs: seq<nat>, g: Grammar): seq<nat>
  {
    if qs == [] then [] else TrailEnds(s, qs[0], g) + TrailsAfter(s, qs[1..], g)
  }

  /** The ends of the digit-field part from `q`. */
  function DigitFieldEnds(s: string, q: nat, g: Grammar): seq<nat>
  {
    TrailsAfter(s, RepeatEnds(s, q, g.seps, g.resolution - 1), g)
  }

  function TagEnds(i: nat, l: nat, le: nat, es: seq<nat>): (r: seq<Span>)
    ensures |r| == |es| && forall k :: 0 <= k < |es| ==> r[k] == Span(i, l, le, es[k])
  {
    seq(|es|, k requires 0 <= k < |es| => Span(i, l, le, es[k]))
  }

  /** The parses with the locus at `s[l..le]`: a separator at `le`, then the digit fields. */
  function AfterLocus(s: string, i: nat, l: nat, le: nat, g: Grammar): seq<Span>
  {
    if le < |s| && IsAlleleSep(s[le]) then TagEnds(i, l, le, DigitFieldEnds(s, le + 1, g)) else []
  }

  /** The parses with the locus ending at each of `les` in turn. */
  function AfterLoci(s: string, i: nat, l: nat, les: seq<nat>, g: Grammar): seq<Span>
  {
    if les == [] then [] else AfterLocus(s, i, l, les[0], g) + AfterLoci(s, i, l, les[1..], g)
  }

  /** The parses whose locus starts at `l`, for each locus end in turn. */
  function SpansFromLocus(s: string, i: nat, l: nat, g: Grammar): seq<Span>
  {
    AfterLoci(s, i, l, LocusEnds(s, l), g)
  }

  /** The parses whose locus starts at each of `ls` in turn. */
  function SpansFromLoci(s: string, i: nat, ls: seq<nat>, g: Grammar): seq<Span>
  {
    if ls == [] then [] else SpansFromLocus(s, i, ls[0], g) + SpansFromLoci(s, i, ls[1..], g)
  }

  /** Every parse starting at `i`, in the order a backtracking matcher tries them. */
  function SpansAt(s: string, i: nat, g: Grammar): seq<Span>
  {
    SpansFromLoci(s, i, PrefixChoices(s, i), g)
  }

  // ---------------------------------------------------------------------------
  // The matcher lists exactly the words of each part

  lemma PrefixEndIff(s: string, i: nat, p: nat)
    ensures PrefixEnd(s, i) == Some(p) <==> PrefixAt(s, i, p)
  {
  }

  lemma PrefixChoicesIff(s: string, i: nat, l: nat)
    ensures l in PrefixChoices(s, i) <==> l == i || PrefixAt(s, i, l)
  {
    PrefixEndIff(s, i, l);
  }

  /** Every character of the maximal run satisfies `p`. */
  lemma {:induction false} RunLengthAll(s: string, i: nat, cl: CharClass, k: nat)
    requires i <= k < i + RunLength(s, i, cl)
    ensures k < |s| && InClass(s[k], cl)
    decreases k - i
  {
    if i < k {
      RunLengthAll(s, i + 1, cl, k);
    }
  }

  /** A run of `p` from `i` to `e` is no longer than the maximal one. */
  lemma {:induction false} RunLengthMax(s: string, i: nat, e: nat, cl: CharClass)
    requires i <= e <= |s|
    requires forall k :: i <= k < e ==> InClass(s[k], cl)
    ensures e <= i + RunLength(s, i, cl)
    decreases e - i
  {
    if i < e {
      RunLengthMax(s, i + 1, e, cl);
    }
  }

  lemma LocusEndsSound(s: string, i: nat, e: nat)
    requires e in LocusEnds(s, i)
    ensures LocusAt(s, i, e)
  {
    var n := RunLength(s, i, Letters);
    forall k | i <= k < i + n
      ensures k < |s| && IsLetter(s[k])
    {
      RunLengthAll(s, i, Letters, k);
    }
    if e == i + n + 1 && i + n < |s| && IsDigit(s[i + n]) {
      assert LettersIn(s, i, e - 1);
    } else {
      assert e in Countdown(i + n, i + 1);
      assert LettersIn(s, i, e);
    }
  }

  lemma LocusEndsComplete(s: string, i: nat, e: nat)
    requires LocusAt(s, i, e)
    ensures e in LocusEnds(s, i)
  {
    if LettersIn(s, i, e) {
      LocusEndsLetters(s, i, e);
    } else {
      LocusEndsDigit(s, i, e);
    }
  }

  lemma LocusEndsLetters(s: string, i: nat, e: nat)
    requires i < e <= |s| && LettersIn(s, i, e)
    ensures e in LocusEnds(s, i)
  {
    var n := RunLength(s, i, Letters);
    RunLengthMax(s, i, e, Letters);
    assert e in Countdown(i + n, i + 1);
  }

  lemma LocusEndsDigit(s: string, i: nat, e: nat)
    requires i + 1 < e <= |s| && LettersIn(s, i, e - 1) && IsDigit(s[e - 1])
    ensures e in LocusEnds(s, i)
  {
    var n := RunLength(s, i, Letters);
    RunLengthMax(s, i, e - 1, Letters);
    if e - 1 < i + n {
      RunLengthAll(s, i, Letters, e - 1);
      assert false;
    }
    assert i + n == e - 1 && IsDigit(s[i + n]);
    assert LocusEnds(s, i)[0] == e;
  }

  /** The locus ends listed are exactly the ends of `[a-zA-Z]+[0-9]?` words from `i`. */
  lemma LocusEndsIff(s: string, i: nat, e: nat)
    ensures e in LocusEnds(s, i) <==> LocusAt(s, i, e)
  {
    if e in LocusEnds(s, i) {
      LocusEndsSound(s, i, e);
    }
    if LocusAt(s, i, e) {
      LocusEndsComplete(s, i, e);
    }
  }

  lemma {:induction false} SepAfterDigitsIff(s: string, q: nat, k: nat, seps: string, e: nat)
    ensures e in SepAfterDigits(s, q, k, seps) <==> q + 2 <= e <= q + k + 1 && e <= |s| && s[e - 1] in seps
  {
    if k > 0 {
      SepAfterDigitsIff(s, q, k - 1, seps, e);
    }
  }

  lemma GroupEndsIff(s: string, q: nat, seps: string, e: nat)
    ensures e in GroupEnds(s, q, seps) <==> q + 1 < e <= |s| && DigitsIn(s, q, e - 1) && s[e - 1] in seps
  {
    var n := RunLength(s, q, Digits);
    SepAfterDigitsIff(s, q, n, seps, e);
    forall k | q <= k < q + n ensures k < |s| && IsDigit(s[k]) {
      RunLengthAll(s, q, Digits, k);
    }
    if q + 1 < e <= |s| && DigitsIn(s, q, e - 1) {
      RunLengthMax(s, q, e - 1, Digits);
    }
  }

  lemma {:induction false} RepeatAllMember(s: string, es: seq<nat>, seps: string, m: nat, e: nat)
    ensures e in RepeatAll(s, es, seps, m) <==> exists g :: g in es && e in RepeatEnds(s, g, seps, m)
  {
    if es != [] {
      RepeatAllMember(s, es[1..], seps, m, e);
      if exists g :: g in es && e in RepeatEnds(s, g, seps, m) {
        var g :| g in es && e in RepeatEnds(s, g, seps, m);
        if g != es[0] {
          assert g in es[1..];
        }
      }
    }
  }

  /** Past the first group, the repetition continues from where that group ends. */
  lemma RepeatEndsMember(s: string, q: nat, seps: string, m: nat, e: nat)
    requires m > 0 && e != q
    ensures e in RepeatEnds(s, q, seps, m) <==> exists g :: g in GroupEnds(s, q, seps) && e in RepeatEnds(s, g, seps, m - 1)
  {
    RepeatAllMember(s, GroupEnds(s, q, seps), seps, m - 1, e);
  }

  lemma {:induction false} RepeatEndsSound(s: string, q: nat, seps: string, m: nat, e: nat)
    requires q <= |s|
    requires e in RepeatEnds(s, q, seps, m)
    ensures GroupsAt(s, q, e, seps, m)
    decreases m
  {
    if m > 0 && e != q {
      RepeatEndsMember(s, q, seps, m, e);
      var g :| g in GroupEnds(s, q, seps) && e in RepeatEnds(s, g, seps, m - 1);
      GroupEndsIff(s, q, seps, g);
      RepeatEndsSound(s, g, seps, m - 1, e);
      assert q < g - 1 < e && DigitsIn(s, q, g - 1) && s[g - 1] in seps && GroupsAt(s, g, e, seps, m - 1);
    }
  }

  lemma {:induction false} RepeatEndsComplete(s: string, q: nat, seps: string, m: nat, e: nat)
    requires GroupsAt(s, q, e, seps, m)
    ensures e in RepeatEnds(s, q, seps, m)
    decreases m
  {
    if e != q {
      var c :| q < c < e && DigitsIn(s, q, c) && s[c] in seps && GroupsAt(s, c + 1, e, seps, m - 1);
      GroupEndsIff(s, q, seps, c + 1);
      RepeatEndsComplete(s, c + 1, seps, m - 1, e);
      RepeatEndsMember(s, q, seps, m, e);
    }
  }

  /** The repetition's end positions are exactly the ends of words of `(?:[0-9]+[SEPS]){0,m}`. */
  lemma RepeatEndsIff(s: string, q: nat, seps: string, m: nat, e: nat)
    requires q <= |s|
    ensures e in RepeatEnds(s, q, seps, m) <==> GroupsAt(s, q, e, seps, m)
  {
    if e in RepeatEnds(s, q, seps, m) {
      RepeatEndsSound(s, q, seps, m, e);
    }
    if GroupsAt(s, q, e, seps, m) {
      RepeatEndsComplete(s, q, seps, m, e);
    }
  }

  lemma TrailEndsIff(s: string, q: nat, g: Grammar, e: nat)
    ensures e in TrailEnds(s, q, g) <==> q < e <= |s| && FieldCharsIn(s, q, e, g)
  {
    var n := RunLength(s, q, FieldChars(g));
    forall k | q <= k < q + n ensures k < |s| && IsFieldChar(s[k], g) {
      RunLengthAll(s, q, FieldChars(g), k);
    }
    if q < e <= |s| && FieldCharsIn(s, q, e, g) {
      RunLengthMax(s, q, e, FieldChars(g));
    }
  }

  lemma {:induction false} TrailsAfterMember(s: string, qs: seq<nat>, g: Grammar, e: nat)
    ensures e in TrailsAfter(s, qs, g) <==> exists q :: q in qs && e in TrailEnds(s, q, g)
  {
    if qs != [] {
      TrailsAfterMember(s, qs[1..], g, e);
      if exists q :: q in qs && e in TrailEnds(s, q, g) {
        var q :| q in qs && e in TrailEnds(s, q, g);
        if q != qs[0] {
          assert q in qs[1..];
        }
      }
    }
  }

  /** A digit-field end is a trailing-run end after some end of the repetition. */
  lemma DigitFieldEndsMember(s: string, q: nat, g: Grammar, e: nat)
    ensures e in DigitFieldEnds(s, q, g) <==>
              exists r :: r in RepeatEnds(s, q, g.seps, g.resolution - 1) && e in TrailEnds(s, r, g)
  {
    TrailsAfterMember(s, RepeatEnds(s, q, g.seps, g.resolution - 1), g, e);
  }

  lemma DigitFieldEndsSound(s: string, q: nat, g: Grammar, e: nat)
    requires q <= |s|
    requires e in DigitFieldEnds(s, q, g)
    ensures DigitFieldAt(s, q, e, g)
  {
    DigitFieldEndsMember(s, q, g, e);
    var r :| r in RepeatEnds(s, q, g.seps, g.resolution - 1) && e in TrailEnds(s, r, g);
    RepeatEndsSound(s, q, g.seps, g.resolution - 1, r);
    TrailEndsIff(s, r, g, e);
  }

  lemma DigitFieldEndsComplete(s: string, q: nat, g: Grammar, e: nat)
    requires DigitFieldAt(s, q, e, g)
    ensures e in DigitFieldEnds(s, q, g)
  {
    var r :| q <= r < e && GroupsAt(s, q, r, g.seps, g.resolution - 1) && FieldCharsIn(s, r, e, g);
    RepeatEndsComplete(s, q, g.seps, g.resolution - 1, r);
    TrailEndsIff(s, r, g, e);
    DigitFieldEndsMember(s, q, g, e);
  }

  /** The digit-field end positions are exactly the ends of its words: up to
    * resolution-1 separator-closed digit groups, then a non-empty run of digits and suffix letters. */
  lemma DigitFieldEndsIff(s: string, q: nat, g: Grammar, e: nat)
    requires q <= |s|
    ensures e in DigitFieldEnds(s, q, g) <==> DigitFieldAt(s, q, e, g)
  {
    if e in DigitFieldEnds(s, q, g) {
      DigitFieldEndsSound(s, q, g, e);
    }
    if DigitFieldAt(s, q, e, g) {
      DigitFieldEndsComplete(s, q, g, e);
    }
  }

  lemma TagEndsMember(i: nat, l: nat, le: nat, es: seq<nat>, sp: Span)
    ensures sp in TagEnds(i, l, le, es) <==> sp.start == i && sp.locusStart == l && sp.locusEnd == le && sp.end in es
  {
    var r := TagEnds(i, l, le, es);
    if sp.start == i && sp.locusStart == l && sp.locusEnd == le && sp.end in es {
      var k :| 0 <= k < |es| && es[k] == sp.end;
      assert r[k] == sp;
    }
  }

  lemma AfterLocusMember(s: string, i: nat, l: nat, g: Grammar, le: nat, sp: Span)
    ensures sp in AfterLocus(s, i, l, le, g) <==>
              && le < |s| && IsAlleleSep(s[le])
              && sp.start == i && sp.locusStart == l && sp.locusEnd == le && sp.end in DigitFieldEnds(s, le + 1, g)
  {
    if le < |s| && IsAlleleSep(s[le]) {
      TagEndsMember(i, l, le, DigitFieldEnds(s, le + 1, g), sp);
    }
  }

  lemma {:induction false} AfterLociMember(s: string, i: nat, l: nat, les: seq<nat>, g: Grammar, sp: Span)
    ensures sp in AfterLoci(s, i, l, les, g) <==> exists le :: le in les && sp in AfterLocus(s, i, l, le, g)
  {
    if les != [] {
      AfterLociMember(s, i, l, les[1..], g, sp);
      if exists le :: le in les && sp in AfterLocus(s, i, l, le, g) {
        var le :| le in les && sp in AfterLocus(s, i, l, le, g);
        if le != les[0] {
          assert le in les[1..];
        }
      }
    }
  }

  /** The parses with the locus at `s[l..le]` for a listed `le`: a separator at `le`, then digit fields. */
  lemma SpansFromLocusMember(s: string, i: nat, l: nat, g: Grammar, sp: Span)
    ensures sp in SpansFromLocus(s, i, l, g) <==>
              && sp.start == i && sp.locusStart == l && sp.locusEnd in LocusEnds(s, l)
              && sp.locusEnd < |s| && IsAlleleSep(s[sp.locusEnd])
              && sp.end in DigitFieldEnds(s, sp.locusEnd + 1, g)
  {
    if sp in SpansFromLocus(s, i, l, g) {
      SpansFromLocusSound(s, i, l, g, sp);
    } else {
      AfterLociMember(s, i, l, LocusEnds(s, l), g, sp);
      AfterLocusMember(s, i, l, g, sp.locusEnd, sp);
    }
  }

  lemma SpansFromLocusSound(s: string, i: nat, l: nat, g: Grammar, sp: Span)
    requires sp in SpansFromLocus(s, i, l, g)
    ensures && sp.start == i && sp.locusStart == l && sp.locusEnd in LocusEnds(s, l)
            && sp.locusEnd < |s| && IsAlleleSep(s[sp.locusEnd])
            && sp.end in DigitFieldEnds(s, sp.locusEnd + 1, g)
  {
    var le := AfterLociSource(s, i, l, LocusEnds(s, l), g, sp);
    assert le < |s| && IsAlleleSep(s[le]);
    var es := DigitFieldEnds(s, le + 1, g);
    assert sp in TagEnds(i, l, le, es);
    TagEndsMember(i, l, le, es, sp);
  }

  lemma {:induction false} AfterLociSource(s: string, i: nat, l: nat, les: seq<nat>, g: Grammar, sp: Span) returns (le: nat)
    requires sp in AfterLoci(s, i, l, les, g)
    ensures le in les && sp in AfterLocus(s, i, l, le, g)
  {
    if sp in AfterLocus(s, i, l, les[0], g) {
      le := les[0];
    } else {
      le := AfterLociSource(s, i, l, les[1..], g, sp);
    }
  }

  lemma {:induction false} SpansFromLociMember(s: string, i: nat, ls: seq<nat>, g: Grammar, sp: Span)
    ensures sp in SpansFromLoci(s, i, ls, g) <==> exists l :: l in ls && sp in SpansFromLocus(s, i, l, g)
  {
    if ls != [] {
      SpansFromLociMember(s, i, ls[1..], g, sp);
      if exists l :: l in ls && sp in SpansFromLocus(s, i, l, g) {
        var l :| l in ls && sp in SpansFromLocus(s, i, l, g);
        if l != ls[0] {
          assert l in ls[1..];
        }
      }
    }
  }

  lemma SpansAtMember(s: string, i: nat, g: Grammar, sp: Span)
    ensures sp in SpansAt(s, i, g) <==> sp.locusStart in PrefixChoices(s, i) && sp in SpansFromLocus(s, i, sp.locusStart, g)
  {
    SpansFromLociMember(s, i, PrefixChoices(s, i), g, sp);
    if sp in SpansAt(s, i, g) {
      var l :| l in PrefixChoices(s, i) && sp in SpansFromLocus(s, i, l, g);
      SpansFromLocusMember(s, i, l, g, sp);
    }
  }

  /** A candidate at `i` places its parts at positions the part matchers list. */
  lemma SpansAtParts(s: string, i: nat, g: Grammar, sp: Span)
    requires sp in SpansAt(s, i, g)
    ensures sp.start == i && sp.locusStart in PrefixChoices(s, i)
    ensures sp.locusEnd in LocusEnds(s, sp.locusStart) && sp.locusEnd < |s| && IsAlleleSep(s[sp.locusEnd])
    ensures sp.end in DigitFieldEnds(s, sp.locusEnd + 1, g)
  {
    SpansAtMember(s, i, g, sp);
    SpansFromLocusMember(s, i, sp.locusStart, g, sp);
  }

  /** Parts placed where the part matchers list them make a parse. */
  lemma PartsSound(s: string, i: nat, g: Grammar, sp: Span)
    requires sp.start == i && sp.locusStart in PrefixChoices(s, i)
    requires sp.locusEnd in LocusEnds(s, sp.locusStart) && sp.locusEnd < |s| && IsAlleleSep(s[sp.locusEnd])
    requires sp.end in DigitFieldEnds(s, sp.locusEnd + 1, g)
    ensures IsParse(s, sp, g)
  {
    PrefixChoicesIff(s, i, sp.locusStart);
    LocusEndsIff(s, sp.locusStart, sp.locusEnd);
    DigitFieldEndsSound(s, sp.locusEnd + 1, g, sp.end);
  }

  lemma SpansAtSound(s: string, i: nat, g: Grammar, sp: Span)
    requires sp in SpansAt(s, i, g)
    ensures sp.start == i && IsParse(s, sp, g)
  {
    SpansAtParts(s, i, g, sp);
    PartsSound(s, i, g, sp);
  }

  /** The parts of a parse sit at positions the part matchers list. */
  lemma PartsComplete(s: string, i: nat, g: Grammar, sp: Span)
    requires sp.start == i && IsParse(s, sp, g)
    ensures sp.locusStart in PrefixChoices(s, i)
    ensures sp.locusEnd in LocusEnds(s, sp.locusStart) && sp.locusEnd < |s| && IsAlleleSep(s[sp.locusEnd])
    ensures sp.end in DigitFieldEnds(s, sp.locusEnd + 1, g)
  {
    assert sp.locusStart in PrefixChoices(s, i) by {
      PrefixChoicesIff(s, i, sp.locusStart);
    }
    assert sp.locusEnd in LocusEnds(s, sp.locusStart) by {
      LocusEndsComplete(s, sp.locusStart, sp.locusEnd);
    }
    assert sp.end in DigitFieldEnds(s, sp.locusEnd + 1, g) by {
      DigitFieldEndsComplete(s, sp.locusEnd + 1, g, sp.end);
    }
  }

  /** A span whose parts sit at listed positions is among the candidates. */
  lemma PartsListed(s: string, i: nat, g: Grammar, sp: Span)
    requires sp.start == i && sp.locusStart in PrefixChoices(s, i)
    requires sp.locusEnd in LocusEnds(s, sp.locusStart) && sp.locusEnd < |s| && IsAlleleSep(s[sp.locusEnd])
    requires sp.end in DigitFieldEnds(s, sp.locusEnd + 1, g)
    ensures sp in SpansFromLocus(s, i, sp.locusStart, g) && sp in SpansAt(s, i, g)
  {
    SpansFromLocusMember(s, i, sp.locusStart, g, sp);
    SpansAtMember(s, i, g, sp);
  }

  lemma SpansAtComplete(s: string, i: nat, g: Grammar, sp: Span)
    requires sp.start == i && IsParse(s, sp, g)
    ensures sp in SpansAt(s, i, g)
  {
    PartsComplete(s, i, g, sp);
    PartsListed(s, i, g, sp);
  }

  /** The matcher's candidates at `i` are exactly the parses starting at `i`. */
  lemma SpansAtIff(s: string, i: nat, g: Grammar, sp: Span)
    ensures sp in SpansAt(s, i, g) <==> sp.start == i && IsParse(s, sp, g)
  {
    if sp in SpansAt(s, i, g) {
      SpansAtSound(s, i, g, sp);
    }
    if sp.start == i && IsParse(s, sp, g) {
      SpansAtComplete(s, i, g, sp);
    }
  }

  // ---------------------------------------------------------------------------
  // Anchored decomposition

  /** Python's `$` without MULTILINE: the end of the text, or just before a final newline. */
  predicate AtEnd(s: string, e: nat)
  {
    e == |s| || (e + 1 == |s| && s[e] == '\n')
  }

  /** The first candidate that `$` accepts. */
  function FirstAtEnd(s: string, sps: seq<Span>): (r: Option<Span>)
    ensures r.Some? ==> r.value in sps && AtEnd(s, r.value.end)
    ensures r.None? ==> forall k :: 0 <= k < |sps| ==> !AtEnd(s, sps[k].end)
  {
    if sps == [] then None
    else if AtEnd(s, sps[0].end) then Some(sps[0])
    else FirstAtEnd(s, sps[1..])
  }

  lemma {:induction false} FirstAtEndAppend(s: string, a: seq<Span>, b: seq<Span>)
    ensures FirstAtEnd(s, a + b) == if FirstAtEnd(s, a).Some? then FirstAtEnd(s, a) else FirstAtEnd(s, b)
  {
    if a == [] {
      assert a + b == b;
    } else {
      assert (a + b)[0] == a[0];
      assert (a + b)[1..] == a[1..] + b;
      FirstAtEndAppend(s, a[1..], b);
    }
  }

  /** The match of `^prefix?locus sep digit_fields$`: the first parse from the
    * start of the text, in matcher order, that `$` accepts. */
  function AnchoredMatch(s: string, g: Grammar): (r: Option<Span>)
    ensures r.Some? ==> r.value.start == 0 && IsParse(s, r.value, g) && AtEnd(s, r.value.end)
  {
    var r := FirstAtEnd(s, SpansAt(s, 0, g));
    if r.Some? then
      SpansAtSound(s, 0, g, r.value);
      r
    else r
  }

  /** The anchored match exists exactly when some parse from the start is accepted by `$`. */
  lemma AnchoredMatchIff(s: string, g: Grammar)
    ensures AnchoredMatch(s, g).Some? <==> exists sp: Span :: sp.start == 0 && IsParse(s, sp, g) && AtEnd(s, sp.end)
  {
    if sp: Span :| sp.start == 0 && IsParse(s, sp, g) && AtEnd(s, sp.end) {
      SpansAtComplete(s, 0, g, sp);
      var sps := SpansAt(s, 0, g);
      var k :| 0 <= k < |sps| && sps[k] == sp;
    }
  }

  /** The parts of a decomposed allele name. */
  datatype HlaAlleleName = HlaAlleleName(prefix: string, locus: string, digitField: string, sep: string)

  /** `{prefix}{locus}{sep}{fields}`. */
  function ToString(a: HlaAlleleName): string
  {
    a.prefix + a.locus + a.sep + a.digitField
  }

  /** `decompose`: rejects a blank name, a name without an anchored match, and a
    * locus that is not valid once upper-cased; an absent prefix is returned as
    * `""`, and the locus keeps its case. */
  function Decompose(allele: string, g: Grammar): (r: Result<HlaAlleleName>)
    ensures IsBlank(allele) ==> r.Err?
    ensures r.Ok? ==>
              && Upper(r.value.locus) in ValidLoci
              && IsLocusText(r.value.locus)
              && (r.value.prefix == [] || IsPrefixText(r.value.prefix))
              && |r.value.sep| == 1 && IsAlleleSep(r.value.sep[0])
              && DigitFieldText(r.value.digitField, g)
  {
    if IsBlank(allele) then Err(DecomposeError)
    else match AnchoredMatch(allele, g)
      case None => Err(DecomposeError)
      case Some(sp) =>
        PartsOfParse(allele, sp, g);
        var parts := Parts(allele, sp);
        if Upper(parts.locus) !in ValidLoci then Err(DecomposeError) else Ok(parts)
  }

  /** The parts of a parse from the start of the text are words of their parts. */
  lemma PartsOfParse(s: string, sp: Span, g: Grammar)
    requires sp.start == 0 && IsParse(s, sp, g)
    ensures var p := Parts(s, sp);
            && IsLocusText(p.locus)
            && (p.prefix == [] || IsPrefixText(p.prefix))
            && |p.sep| == 1 && IsAlleleSep(p.sep[0])
            && DigitFieldText(p.digitField, g)
  {
    PartsText(s, sp, g);
    assert s[..sp.locusStart] == s[sp.start..sp.locusStart];
  }

  lemma DigitsShift(s: string, a: nat, b: nat, x: nat, y: nat)
    requires a <= x <= y <= b <= |s|
    ensures DigitsIn(s, x, y) <==> DigitsIn(s[a..b], x - a, y - a)
  {
    var t := s[a..b];
    assert forall k :: x - a <= k < y - a ==> t[k] == s[k + a];
  }

  /** A word of groups in the text is one in a window around it, shifted. */
  lemma {:induction false} GroupsIntoWindow(s: string, a: nat, b: nat, x: nat, y: nat, seps: string, m: nat)
    requires a <= x <= y <= b <= |s| && GroupsAt(s, x, y, seps, m)
    ensures GroupsAt(s[a..b], x - a, y - a, seps, m)
    decreases m
  {
    if x != y {
      var t := s[a..b];
      var c :| x < c < y && DigitsIn(s, x, c) && s[c] in seps && GroupsAt(s, c + 1, y, seps, m - 1);
      GroupsIntoWindow(s, a, b, c + 1, y, seps, m - 1);
      DigitsShift(s, a, b, x, c);
      assert t[c - a] == s[c];
      assert x - a < c - a < y - a && DigitsIn(t, x - a, c - a) && t[c - a] in seps
             && GroupsAt(t, c - a + 1, y - a, seps, m - 1);
    }
  }

  /** A word of groups in a window is one in the text, shifted back. */
  lemma {:induction false} GroupsFromWindow(s: string, a: nat, b: nat, x: nat, y: nat, seps: string, m: nat)
    requires a <= x <= y <= b <= |s| && GroupsAt(s[a..b], x - a, y - a, seps, m)
    ensures GroupsAt(s, x, y, seps, m)
    decreases m
  {
    var t := s[a..b];
    if x != y {
      var c :| x - a < c < y - a && DigitsIn(t, x - a, c) && t[c] in seps && GroupsAt(t, c + 1, y - a, seps, m - 1);
      GroupsFromWindow(s, a, b, c + a + 1, y, seps, m - 1);
      DigitsShift(s, a, b, x, c + a);
      assert t[c] == s[c + a];
    }
  }

  lemma PrefixText(s: string, a: nat, b: nat)
    requires a <= b <= |s|
    ensures PrefixAt(s, a, b) <==> IsPrefixText(s[a..b])
  {
    var p := s[a..b];
    assert forall k :: 0 <= k < |p| ==> p[k] == s[a + k];
  }

  lemma LocusText(s: string, a: nat, b: nat)
    requires a <= b <= |s|
    ensures LocusAt(s, a, b) <==> IsLocusText(s[a..b])
  {
    var t := s[a..b];
    assert forall k :: 0 <= k < |t| ==> t[k] == s[a + k];
  }

  lemma FieldText(s: string, a: nat, b: nat, g: Grammar)
    requires DigitFieldAt(s, a, b, g)
    ensures DigitFieldText(s[a..b], g)
  {
    var t := s[a..b];
    var c :| a <= c < b && GroupsAt(s, a, c, g.seps, g.resolution - 1) && FieldCharsIn(s, c, b, g);
    GroupsIntoWindow(s, a, b, a, c, g.seps, g.resolution - 1);
    FieldCharsShift(s, a, b, c, b, g);
    assert 0 <= c - a < |t| && GroupsAt(t, 0, c - a, g.seps, g.resolution - 1) && FieldCharsIn(t, c - a, |t|, g);
  }

  lemma FieldCharsShift(s: string, a: nat, b: nat, x: nat, y: nat, g: Grammar)
    requires a <= x <= y <= b <= |s|
    ensures FieldCharsIn(s, x, y, g) <==> FieldCharsIn(s[a..b], x - a, y - a, g)
  {
    var t := s[a..b];
    assert forall k :: x - a <= k < y - a ==> t[k] == s[k + a];
  }

  /** The parts of a parse, cut out of the text, are words of their parts. */
  lemma PartsText(s: string, sp: Span, g: Grammar)
    requires IsParse(s, sp, g)
    ensures sp.locusStart == sp.start || IsPrefixText(s[sp.start..sp.locusStart])
    ensures IsLocusText(s[sp.locusStart..sp.locusEnd])
    ensures DigitFieldText(s[sp.locusEnd + 1..sp.end], g)
  {
    PrefixText(s, sp.start, sp.locusStart);
    LocusText(s, sp.locusStart, sp.locusEnd);
    FieldText(s, sp.locusEnd + 1, sp.end, g);
  }

  /** The named groups of a match; the prefix group is `""` when it did not take part. */
  function Parts(s: string, sp: Span): HlaAlleleName
    requires sp.locusStart < sp.locusEnd < sp.end <= |s|
  {
    HlaAlleleName(s[..sp.locusStart], s[sp.locusStart..sp.locusEnd], s[sp.locusEnd + 1..sp.end], s[sp.locusEnd..sp.locusEnd + 1])
  }

  lemma PartsJoin(s: string, sp: Span)
    requires sp.locusStart < sp.locusEnd < sp.end <= |s|
    ensures ToString(Parts(s, sp)) == s[..sp.end]
  {
    JoinSlices(s, sp.locusStart, sp.locusEnd, sp.locusEnd + 1, sp.end);
  }

  /** Writing a decomposed name back gives the input, up to the final newline that `$` lets through. */
  lemma DecomposeRoundTrip(allele: string, g: Grammar)
    requires Decompose(allele, g).Ok?
    ensures var text := ToString(Decompose(allele, g).value);
            text == allele || text + "\n" == allele
    ensures allele[|allele| - 1] != '\n' ==> ToString(Decompose(allele, g).value) == allele
  {
    var sp := AnchoredMatch(allele, g).value;
    PartsRoundTrip(allele, sp);
  }

  lemma PartsRoundTrip(s: string, sp: Span)
    requires sp.locusStart < sp.locusEnd < sp.end <= |s| && AtEnd(s, sp.end)
    ensures var text := ToString(Parts(s, sp));
            && (text == s || text + "\n" == s)
            && (s[|s| - 1] != '\n' ==> text == s)
  {
    PartsJoin(s, sp);
    if sp.end < |s| {
      assert s == s[..sp.end] + "\n";
    } else {
      assert s[..sp.end] == s;
    }
  }

  lemma JoinSlices(s: string, a: nat, b: nat, c: nat, d: nat)
    requires a <= b <= c <= d <= |s|
    ensures s[..a] + s[a..b] + s[b..c] + s[c..d] == s[..d]
  {
    assert s[..a] + s[a..b] == s[..b];
    assert s[..b] + s[b..c] == s[..c];
    assert s[..c] + s[c..d] == s[..d];
  }

  /** With a prefix ending at `l`, the candidates that use it come before those that do not. */
  lemma SpansAtWithPrefix(s: string, l: nat, g: Grammar)
    requires PrefixEnd(s, 0) == Some(l)
    ensures SpansAt(s, 0, g) == SpansFromLocus(s, 0, l, g) + SpansFromLocus(s, 0, 0, g)
  {
    var ls := PrefixChoices(s, 0);
    assert ls == [l, 0];
    assert ls[1..] == [0];
    assert SpansFromLoci(s, 0, ls[1..], g) == SpansFromLocus(s, 0, 0, g) + SpansFromLoci(s, 0, [], g);
  }

  /** Priority: when some accepted parse uses the prefix, the match uses it too. */
  lemma PrefixTriedFirst(s: string, g: Grammar, sp: Span)
    requires sp.start == 0 && IsParse(s, sp, g) && AtEnd(s, sp.end) && sp.locusStart > 0
    ensures AnchoredMatch(s, g).Some? && AnchoredMatch(s, g).value.locusStart == sp.locusStart
  {
    var l := sp.locusStart;
    PrefixEndIff(s, 0, l);
    SpansAtWithPrefix(s, l, g);
    var withPrefix := SpansFromLocus(s, 0, l, g);
    PartsComplete(s, 0, g, sp);
    PartsListed(s, 0, g, sp);
    var k :| 0 <= k < |withPrefix| && withPrefix[k] == sp;
    var r := FirstAtEnd(s, withPrefix);
    assert r.Some?;
    SpansFromLocusMember(s, 0, l, g, r.value);
    FirstAtEndAppend(s, withPrefix, SpansFromLocus(s, 0, 0, g));
  }

  // ---------------------------------------------------------------------------
  // Unanchored resolution reduction

  /** The first position among `i, i+1, ..., n` where `f` is non-empty. */
  function FirstNonEmpty<T>(f: nat -> seq<T>, i: nat, n: nat): (r: Option<nat>)
    requires i <= n
    ensures r.Some? ==> i <= r.value <= n
    decreases n - i
  {
    if f(i) != [] then Some(i) else if i == n then None else FirstNonEmpty(f, i + 1, n)
  }

  lemma {:induction false} FirstNonEmptySpec<T>(f: nat -> seq<T>, i: nat, n: nat)
    requires i <= n
    ensures var r := FirstNonEmpty(f, i, n);
            && (r.Some? ==> f(r.value) != [] && forall j :: i <= j < r.value ==> f(j) == [])
            && (r.None? ==> forall j :: i <= j <= n ==> f(j) == [])
    decreases n - i
  {
    if f(i) == [] && i < n {
      FirstNonEmptySpec(f, i + 1, n);
    }
  }

  /** The candidates at each position of `s` (none past its end). */
  function CandidatesOf(s: string, g: Grammar): nat -> seq<Span>
  {
    (j: nat) => if j <= |s| then SpansAt(s, j, g) else []
  }

  /** The first candidate at the leftmost position from `i` on where any candidate exists. */
  function LeftmostFrom(s: string, i: nat, g: Grammar): (r: Option<Span>)
    requires i <= |s|
  {
    match FirstNonEmpty(CandidatesOf(s, g), i, |s|)
    case None => None
    case Some(j) => if SpansAt(s, j, g) != [] then Some(SpansAt(s, j, g)[0]) else None
  }

  lemma FirstCandidateStart(s: string, j: nat, g: Grammar)
    requires SpansAt(s, j, g) != []
    ensures SpansAt(s, j, g)[0].start == j
  {
    SpansAtSound(s, j, g, SpansAt(s, j, g)[0]);
  }

  /** The leftmost search stops at the first position with a candidate, takes
    * that position's first candidate, and finds nothing only when no position
    * has one. */
  lemma LeftmostFromSpec(s: string, i: nat, g: Grammar)
    requires i <= |s|
    ensures var r := LeftmostFrom(s, i, g);
            && (r.Some? ==> i <= r.value.start <= |s|)
            && (r.Some? ==> SpansAt(s, r.value.start, g) != [] && r.value == SpansAt(s, r.value.start, g)[0])
            && (r.Some? ==> forall j :: i <= j < r.value.start ==> SpansAt(s, j, g) == [])
            && (r.None? ==> forall j :: i <= j <= |s| ==> SpansAt(s, j, g) == [])
  {
    var f := CandidatesOf(s, g);
    FirstNonEmptySpec(f, i, |s|);
    var p := FirstNonEmpty(f, i, |s|);
    if p.Some? {
      LeftmostFound(s, i, g, p.value);
    } else {
      NoneFound(s, i, g);
    }
  }

  /** The leftmost search stopping at `j`: the first candidate there, none before. */
  lemma LeftmostFound(s: string, i: nat, g: Grammar, j: nat)
    requires i <= j <= |s| && FirstNonEmpty(CandidatesOf(s, g), i, |s|) == Some(j)
    requires CandidatesOf(s, g)(j) != [] && forall k :: i <= k < j ==> CandidatesOf(s, g)(k) == []
    ensures SpansAt(s, j, g) != [] && LeftmostFrom(s, i, g) == Some(SpansAt(s, j, g)[0])
    ensures SpansAt(s, j, g)[0].start == j
    ensures forall k :: i <= k < j ==> SpansAt(s, k, g) == []
  {
    var f := CandidatesOf(s, g);
    assert f(j) == SpansAt(s, j, g);
    FirstCandidateStart(s, j, g);
    forall k | i <= k < j
      ensures SpansAt(s, k, g) == []
    {
      assert f(k) == SpansAt(s, k, g);
    }
  }

  /** The leftmost search finding nothing: no candidate at any position from `i` on. */
  lemma NoneFound(s: string, i: nat, g: Grammar)
    requires i <= |s| && forall k :: i <= k <= |s| ==> CandidatesOf(s, g)(k) == []
    ensures forall k :: i <= k <= |s| ==> SpansAt(s, k, g) == []
  {
    var f := CandidatesOf(s, g);
    forall k | i <= k <= |s|
      ensures SpansAt(s, k, g) == []
    {
      assert f(k) == SpansAt(s, k, g);
    }
  }

  /** The reduced name, and whether `reduce_resolution` warns that nothing was cut off. */
  datatype Reduction = Reduction(allele: string, warned: bool)

  /** `reduce_resolution`: the text of the leftmost match, which warns when it is the whole input. */
  function ReduceResolution(allele: string, g: Grammar): (r: Result<Reduction>)
  {
    LeftmostFromSpec(allele, 0, g);
    match LeftmostFrom(allele, 0, g)
    case None => Err(DecomposeError)
    case Some(sp) =>
      SpansAtSound(allele, sp.start, g, sp);
      var m := allele[sp.start..sp.end];
      Ok(Reduction(m, m == allele))
  }

  /** Reduction succeeds exactly when some substring parses; it returns the
    * highest-priority parse at the leftmost position where one starts, and it
    * warns exactly when that parse spans the whole input. */
  lemma ReduceResolutionSpec(allele: string, g: Grammar)
    ensures ReduceResolution(allele, g).Ok? <==> exists sp: Span :: IsParse(allele, sp, g)
    ensures ReduceResolution(allele, g).Ok? ==>
              exists sp: Span ::
                && IsParse(allele, sp, g)
                && sp.start <= |allele| && SpansAt(allele, sp.start, g) != [] && sp == SpansAt(allele, sp.start, g)[0]
                && ReduceResolution(allele, g).value.allele == allele[sp.start..sp.end]
                && (forall other: Span :: IsParse(allele, other, g) ==> sp.start <= other.start)
                && (ReduceResolution(allele, g).value.warned <==> sp.start == 0 && sp.end == |allele|)
  {
    var r := LeftmostFrom(allele, 0, g);
    LeftmostFromSpec(allele, 0, g);
    forall other: Span | IsParse(allele, other, g)
      ensures r.Some? && r.value.start <= other.start
    {
      SpansAtComplete(allele, other.start, g, other);
    }
    if r.Some? {
      var sp := r.value;
      LeftmostReduction(allele, g);
      assert IsParse(allele, sp, g);
    }
  }

  /** The leftmost candidate parses, and its text is the reduced name. */
  lemma LeftmostReduction(allele: string, g: Grammar)
    requires LeftmostFrom(allele, 0, g).Some?
    ensures var sp := LeftmostFrom(allele, 0, g).value;
            && IsParse(allele, sp, g)
            && sp.start <= |allele| && SpansAt(allele, sp.start, g) != [] && sp == SpansAt(allele, sp.start, g)[0]
            && ReduceResolution(allele, g).Ok?
            && ReduceResolution(allele, g).value.allele == allele[sp.start..sp.end]
            && (ReduceResolution(allele, g).value.warned <==> sp.start == 0 && sp.end == |allele|)
  {
    var sp := LeftmostFrom(allele, 0, g).value;
    LeftmostFromSpec(allele, 0, g);
    SpansAtSound(allele, sp.start, g, sp);
    assert |allele[sp.start..sp.end]| == sp.end - sp.start;
  }
}
