/** Concrete allele names run through `decompose`. */
module HlaExamples {
  import opened Text
  import opened Outcomes
  import opened HlaAllele
  import opened HlaNames

  /** The locus keeps the case it was written in: `HLA-c*01:03` decomposes to
    * prefix `HLA-`, locus `c`, separator `*` and digit fields `01:03`. */
  lemma DecomposeKeepsLocusCase(s: string, g: Grammar)
    requires s == "HLA-c*01:03" && g == DefaultGrammar
    ensures Decompose(s, g) == Ok(HlaAlleleName("HLA-", "c", "01:03", "*"))
  {
    LowerLocusParse(s, g);
    PrefixTriedFirst(s, g, Span(0, 4, 5, 11));
    LowerLocusOnly(s, g, AnchoredMatch(s, g).value);
    assert AnchoredMatch(s, g) == Some(Span(0, 4, 5, 11));
    LowerLocusParts(s);
    NotBlank(s, 0);
  }

  /** A text with a non-space character is not blank. */
  lemma NotBlank(s: string, i: nat)
    requires i < |s| && IsLetter(s[i])
    ensures !IsBlank(s)
  {
  }

  lemma LowerLocusParts(s: string)
    requires s == "HLA-c*01:03"
    ensures Parts(s, Span(0, 4, 5, 11)) == HlaAlleleName("HLA-", "c", "01:03", "*")
    ensures Upper("c") in ValidLoci
  {
    assert s == "HLA-" + "c" + "*" + "01:03";
    SlicesOfFour("HLA-", "c", "*", "01:03");
    assert Upper("c") == "C";
  }

  lemma LowerLocusParse(s: string, g: Grammar)
    requires s == "HLA-c*01:03" && g == DefaultGrammar
    ensures IsParse(s, Span(0, 4, 5, 11), g) && AtEnd(s, 11)
  {
    assert PrefixAt(s, 0, 4) by { assert StemAt(s, 0, false); }
    assert LocusAt(s, 4, 5) by { assert LettersIn(s, 4, 5); }
    assert DigitFieldAt(s, 6, 11, g) by {
      assert GroupsAt(s, 9, 9, g.seps, 2);
      assert DigitsIn(s, 6, 8) && s[8] in g.seps;
      assert GroupsAt(s, 6, 9, g.seps, 3);
      assert FieldCharsIn(s, 9, 11, g);
    }
  }

  lemma LowerLocusOnly(s: string, g: Grammar, sp: Span)
    requires s == "HLA-c*01:03" && g == DefaultGrammar
    requires sp.start == 0 && sp.locusStart == 4 && IsParse(s, sp, g) && AtEnd(s, sp.end)
    ensures sp == Span(0, 4, 5, 11)
  {
    assert !IsLetter(s[5]) && !IsDigit(s[5]);
    assert s[10] != '\n';
  }

  /** A trailing separator leaves no anchored match: `hla_dqb1_02_01_01_` is refused. */
  lemma DecomposeRefusesTrailingSeparator(s: string, g: Grammar)
    requires s == "hla_dqb1_02_01_01_" && g == DefaultGrammar
    ensures Decompose(s, g).Err?
  {
    assert forall e: nat :: AtEnd(s, e) ==> e == |s|;
    assert !IsFieldChar(s[|s| - 1], g);
    if AnchoredMatch(s, g).Some? {
      assert false;
    }
  }

  /** A locus outside the valid list is refused even when the rest of the name
    * is well formed: `HLA-ivy*01:03` is refused. */
  lemma DecomposeRefusesUnknownLocus(s: string, g: Grammar)
    requires s == "HLA-ivy*01:03" && g == DefaultGrammar
    ensures Decompose(s, g) == Err(DecomposeError)
  {
    var a := HlaAlleleName("HLA-", "ivy", "01:03", "*");
    assert ToString(a) == s;
    assert IsPrefixText(a.prefix) by {
      assert StemAt(a.prefix, 0, false);
    }
    LetterLocus(a.locus);
    TwoFieldWord(a.digitField, g);
    UnknownLocus(a.locus);
    DefaultSeparatorsApart();
    DecomposeRejectsLocus(a, g);
  }

  /** A name with no prefix and an unknown locus is refused: `QQQ*01:01:01` is refused. */
  lemma DecomposeRefusesUnknownBareLocus(s: string, g: Grammar)
    requires s == "QQQ*01:01:01" && g == DefaultGrammar
    ensures Decompose(s, g) == Err(DecomposeError)
  {
    var a := HlaAlleleName("", "QQQ", "01:01:01", "*");
    assert ToString(a) == s;
    LetterLocus(a.locus);
    ThreeFieldWord(a.digitField, g);
    UnknownLocus(a.locus);
    DefaultSeparatorsApart();
    DecomposeRejectsLocus(a, g);
  }

  /** A three-letter locus word. */
  lemma LetterLocus(l: string)
    requires |l| == 3 && IsLetter(l[0]) && IsLetter(l[1]) && IsLetter(l[2])
    ensures IsLocusText(l)
  {
    assert LettersIn(l, 0, 3);
  }

  /** A three-letter locus that does not start with `D` and is not `HLA` is not valid. */
  lemma UnknownLocus(l: string)
    requires |l| == 3 && ToUpper(l[0]) != 'D' && ToUpper(l[0]) != 'H'
    ensures Upper(l) !in ValidLoci && Upper(l) != "HLA"
  {
    var u := Upper(l);
    assert u[0] == ToUpper(l[0]);
    OutsideValidLoci(u);
    assert u[0] != "HLA"[0];
  }

  /** `01:03` is a digit-field word of the default grammar. */
  lemma TwoFieldWord(d: string, g: Grammar)
    requires d == "01:03" && g == DefaultGrammar
    ensures DigitFieldText(d, g)
  {
    assert GroupsAt(d, 3, 3, g.seps, 2);
    assert DigitsIn(d, 0, 2) && d[2] in g.seps;
    assert GroupsAt(d, 0, 3, g.seps, 3);
    assert FieldCharsIn(d, 3, 5, g);
  }

  /** `01:01:01` is a digit-field word of the default grammar. */
  lemma ThreeFieldWord(d: string, g: Grammar)
    requires d == "01:01:01" && g == DefaultGrammar
    ensures DigitFieldText(d, g)
  {
    assert GroupsAt(d, 6, 6, g.seps, 1);
    assert DigitsIn(d, 3, 5) && d[5] in g.seps;
    assert GroupsAt(d, 3, 6, g.seps, 2);
    assert DigitsIn(d, 0, 2) && d[2] in g.seps;
    assert GroupsAt(d, 0, 6, g.seps, 3);
    assert FieldCharsIn(d, 6, 8, g);
  }
}
