/** The legacy scorer of the older package: the same token walk and pair
  * aggregation, run over raw alignment records and over the MD tag as a plain
  * string. */
module Legacy {
  import opened Outcomes
  import opened Seqs
  import opened Text
  import opened BamCounters
  import opened Scoring

  // ---------------------------------------------------------------------------
  // The walk over a plain MD string

  /** Iterating over a `str`: every character is a token of its own. */
  function CharTokens(md: string): seq<string>
  {
    seq(|md|, i requires 0 <= i < |md| => [md[i]])
  }

  /** The legacy `score_log_liklihood`, handed the MD tag as a string. */
  function LegacyLogLikelihood(qs: seq<int>, md: string, terms: LogTerms): Result<real>
  {
    LogLikelihood(qs, CharTokens(md), terms)
  }

  /** The legacy walk: the loop of the mhctyper walk, over single characters. */
  method LegacyScoreLogLikelihood(bqs: seq<int>, md: string, terms: LogTerms) returns (r: Result<real>)
    ensures r == LegacyLogLikelihood(bqs, md, terms)
  {
    r := ScoreLogLikelihood(bqs, CharTokens(md), terms);
  }

  // ---------------------------------------------------------------------------
  // MD strings and their tokens

  /** An MD edit the tokens are read from: a mismatch on a letter, or a
    * deletion of at least one letter. */
  predicate ValidEdit(e: MdItem)
  {
    ValidMdItem(e) && (e.MdDeletion? ==> e.bases != [])
  }

  predicate ValidEdits(edits: seq<(MdItem, nat)>)
  {
    forall k :: 0 <= k < |edits| ==> ValidEdit(edits[k].0)
  }

  lemma {:induction false} RenderMdItemsSnoc(items: seq<(MdItem, nat)>)
    requires items != []
    ensures var last := items[|items| - 1];
            RenderMdItems(items) == RenderMdItems(items[..|items| - 1]) + MdItemText(last.0) + NatToDigits(last.1)
  {
    if |items| > 1 {
      RenderMdItemsSnoc(items[1..]);
      assert items[1..][..|items| - 2] == items[..|items| - 1][1..];
    } else {
      assert items[..0] == [];
    }
  }

  /** An MD string grows at its end by one edit and one match count. */
  lemma RenderMdSnoc(n0: nat, edits: seq<(MdItem, nat)>)
    requires edits != []
    ensures var last := edits[|edits| - 1];
            RenderMd(n0, edits) == RenderMd(n0, edits[..|edits| - 1]) + MdItemText(last.0) + NatToDigits(last.1)
  {
    RenderMdItemsSnoc(edits);
  }

  /** The read bases the MD string describes, in order: `true` for a mismatch,
    * `false` for a match; a deletion describes no read base. */
  function QueryBases(n0: nat, edits: seq<(MdItem, nat)>): seq<bool>
  {
    if edits == [] then Repeat(false, n0)
    else
      var last := edits[|edits| - 1];
      QueryBases(n0, edits[..|edits| - 1]) + (if last.0.MdMismatch? then [true] else []) + Repeat(false, last.1)
  }

  /** The tokens of the MD string `n0 (edit n)*`: each number, mismatch and deletion. */
  function TokenList(n0: nat, edits: seq<(MdItem, nat)>): seq<string>
  {
    if edits == [] then [NatToDigits(n0)]
    else
      var last := edits[|edits| - 1];
      TokenList(n0, edits[..|edits| - 1]) + [MdItemText(last.0), NatToDigits(last.1)]
  }

  function DigitKey(): char -> bool
  {
    (c: char) => IsDigit(c)
  }

  /** An MD string cut into runs of digits and runs of other characters. */
  function MdTokens(md: string): seq<string>
  {
    Runs(md, DigitKey())
  }

  /** The walk over the MD tokens, as the mhctyper walk receives them. */
  function TokenLogLikelihood(qs: seq<int>, md: string, terms: LogTerms): Result<real>
  {
    LogLikelihood(qs, MdTokens(md), terms)
  }

  lemma RenderMdEndsInDigit(n0: nat, edits: seq<(MdItem, nat)>)
    ensures RenderMd(n0, edits) != [] && IsDigit(RenderMd(n0, edits)[|RenderMd(n0, edits)| - 1])
  {
    if edits != [] {
      var last := edits[|edits| - 1];
      var d := NatToDigits(last.1);
      RenderMdSnoc(n0, edits);
      assert RenderMd(n0, edits)[|RenderMd(n0, edits)| - 1] == d[|d| - 1];
    } else {
      assert RenderMd(n0, edits) == NatToDigits(n0) + "";
    }
  }

  lemma EditTextNotDigits(e: MdItem)
    requires ValidEdit(e)
    ensures MdItemText(e) != [] && Uniform(MdItemText(e), DigitKey())
    ensures !DigitKey()(MdItemText(e)[0]) && !DigitKey()(MdItemText(e)[|MdItemText(e)| - 1])
  {
    var t := MdItemText(e);
    forall i | 0 <= i < |t|
      ensures !IsDigit(t[i])
    {
      if e.MdDeletion? && i > 0 {
        assert t[i] == e.bases[i - 1];
      }
    }
  }

  lemma DigitsUniform(n: nat)
    ensures Uniform(NatToDigits(n), DigitKey())
    ensures DigitKey()(NatToDigits(n)[0])
  {
  }

  /** Cutting a rendered MD string into runs gives back its numbers, mismatches
    * and deletions. */
  lemma {:induction false} MdTokensOfRender(n0: nat, edits: seq<(MdItem, nat)>)
    requires ValidEdits(edits)
    ensures MdTokens(RenderMd(n0, edits)) == TokenList(n0, edits)
  {
    var key := DigitKey();
    if edits == [] {
      var d := NatToDigits(n0);
      assert RenderMd(n0, edits) == d by {
        assert RenderMdItems(edits) == "";
        assert d + "" == d;
      }
      DigitsUniform(n0);
      RunsOfUniform(d, key);
      assert TokenList(n0, edits) == [d];
    } else {
      var init := edits[..|edits| - 1];
      assert ValidEdits(init) by {
        forall k | 0 <= k < |init|
          ensures ValidEdit(init[k].0)
        {
          assert init[k] == edits[k];
        }
      }
      MdTokensOfRender(n0, init);
      MdTokensSnoc(n0, edits);
    }
  }

  lemma MdTokensSnoc(n0: nat, edits: seq<(MdItem, nat)>)
    requires edits != [] && ValidEdits(edits)
    requires MdTokens(RenderMd(n0, edits[..|edits| - 1])) == TokenList(n0, edits[..|edits| - 1])
    ensures MdTokens(RenderMd(n0, edits)) == TokenList(n0, edits)
  {
    var init := edits[..|edits| - 1];
    var last := edits[|edits| - 1];
    assert ValidEdit(last.0);
    var r, e, d := RenderMd(n0, init), MdItemText(last.0), NatToDigits(last.1);
    RenderMdEndsInDigit(n0, init);
    EditTextNotDigits(last.0);
    DigitsUniform(last.1);
    RenderMdSnoc(n0, edits);
    RunsOfEditAndCount(r, e, d);
  }

  /** An edit and a match count appended to a rendered MD string are two more runs. */
  lemma RunsOfEditAndCount(r: string, e: string, d: string)
    requires r != [] && DigitKey()(r[|r| - 1])
    requires e != [] && Uniform(e, DigitKey()) && !DigitKey()(e[0]) && !DigitKey()(e[|e| - 1])
    requires d != [] && Uniform(d, DigitKey()) && DigitKey()(d[0])
    ensures Runs(r + e + d, DigitKey()) == Runs(r, DigitKey()) + [e, d]
  {
    var key := DigitKey();
    assert r + e + d == r + (e + d);
    RunsAppend(e, d, key);
    RunsOfUniform(e, key);
    RunsOfUniform(d, key);
    assert (e + d)[0] == e[0];
    RunsAppend(r, e + d, key);
  }

  lemma BasesAppendTwo(xs: seq<string>, a: string, b: string)
    ensures Bases(xs + [a, b]) == Bases(xs) + TokenBases(a) + TokenBases(b)
  {
    var ys := xs + [a, b];
    assert ys[..|ys| - 1] == xs + [a];
    assert (xs + [a])[..|xs|] == xs;
  }

  lemma DigitsToken(n: nat)
    ensures KindOf(NatToDigits(n)) == Matches(n)
  {
    var d := NatToDigits(n);
    DigitsRoundTrip(n);
    assert IsDigit(d[0]);
    assert !IsAlpha(d) by {
      assert !IsLetter(d[0]);
    }
  }

  lemma EditToken(e: MdItem)
    requires ValidEdit(e)
    ensures KindOf(MdItemText(e)) == if e.MdMismatch? then Mismatches(1) else Skip
  {
  }

  /** The tokens of a rendered MD string are well formed, and they spell out
    * exactly the read bases the string describes. */
  lemma {:induction false} TokenListBases(n0: nat, edits: seq<(MdItem, nat)>)
    requires ValidEdits(edits)
    ensures forall k :: 0 <= k < |TokenList(n0, edits)| ==> !KindOf(TokenList(n0, edits)[k]).Malformed?
    ensures Bases(TokenList(n0, edits)) == QueryBases(n0, edits)
  {
    if edits == [] {
      DigitsToken(n0);
      assert Bases([NatToDigits(n0)]) == Bases([]) + TokenBases(NatToDigits(n0));
    } else {
      var init := edits[..|edits| - 1];
      var last := edits[|edits| - 1];
      assert ValidEdits(init) by {
        forall k | 0 <= k < |init|
          ensures ValidEdit(init[k].0)
        {
          assert init[k] == edits[k];
        }
      }
      assert ValidEdit(last.0);
      TokenListBases(n0, init);
      var xs := TokenList(n0, init);
      var e, d := MdItemText(last.0), NatToDigits(last.1);
      DigitsToken(last.1);
      EditToken(last.0);
      BasesAppendTwo(xs, e, d);
      if last.0.MdMismatch? {
        assert TokenBases(e) == Repeat(true, 1) == [true];
      }
      forall k | 0 <= k < |TokenList(n0, edits)|
        ensures !KindOf(TokenList(n0, edits)[k]).Malformed?
      {
        if k < |xs| {
          assert TokenList(n0, edits)[k] == xs[k];
        }
      }
    }
  }

  /** The walk over MD tokens reads a rendered MD string as intended: it never
    * raises, its cursor ends after every read base the string describes, and
    * each quality is scored by the kind of its read base. */
  lemma TokenWalkIntended(qs: seq<int>, n0: nat, edits: seq<(MdItem, nat)>, terms: LogTerms)
    requires ValidEdits(edits)
    ensures var tokens := MdTokens(RenderMd(n0, edits));
            && WalkOf(qs, tokens, terms).Ok?
            && WalkOf(qs, tokens, terms).value.start == |QueryBases(n0, edits)|
            && TokenLogLikelihood(qs, RenderMd(n0, edits), terms)
               == Ok(Sum(PairedTerms(qs, QueryBases(n0, edits), terms)))
  {
    var tokens := MdTokens(RenderMd(n0, edits));
    MdTokensOfRender(n0, edits);
    TokenListBases(n0, edits);
    WalkOkIff(qs, tokens, terms);
    WalkPairsBases(qs, tokens, terms);
  }

  /** The legacy walk misreads the MD string `10A5` (ten matches, a mismatch,
    * five matches): its cursor stops after 7 qualities rather than 16, and it
    * scores the second quality as a mismatch. */
  lemma LegacyMisreadsNumbers(qs: seq<int>, terms: LogTerms)
    ensures "10A5" == RenderMd(10, [(MdMismatch('A'), 5)])
    ensures |QueryBases(10, [(MdMismatch('A'), 5)])| == 16 && !QueryBases(10, [(MdMismatch('A'), 5)])[1]
    ensures WalkOf(qs, CharTokens("10A5"), terms).Ok?
    ensures WalkOf(qs, CharTokens("10A5"), terms).value.start == 7
    ensures Bases(CharTokens("10A5"))[1]
  {
    TenAFive();
    TenAFiveChars(qs, terms);
  }

  /** `10A5` is the MD string of ten matches, a mismatch and five matches. */
  lemma TenAFive()
    ensures "10A5" == RenderMd(10, [(MdMismatch('A'), 5)])
    ensures QueryBases(10, [(MdMismatch('A'), 5)]) == Repeat(false, 10) + [true] + Repeat(false, 5)
  {
    var edits := [(MdMismatch('A'), 5)];
    assert NatToDigits(10) == "10" by {
      assert NatToDigits(1) == "1";
    }
    assert NatToDigits(5) == "5";
    assert edits[1..] == [] && edits[..0] == [];
    assert RenderMd(10, edits) == "10" + ("A" + "5" + "");
  }

  /** Character by character, `10A5` reads as one match, no match, a mismatch
    * and five matches. */
  lemma TenAFiveChars(qs: seq<int>, terms: LogTerms)
    ensures WalkOf(qs, CharTokens("10A5"), terms).Ok?
    ensures WalkOf(qs, CharTokens("10A5"), terms).value.start == 7
    ensures Bases(CharTokens("10A5"))[1]
  {
    var ts := CharTokens("10A5");
    TenAFiveBases();
    assert forall k :: 0 <= k < |ts| ==> !KindOf(ts[k]).Malformed? by {
      assert ts == ["1", "0", "A", "5"];
    }
    WalkOkIff(qs, ts, terms);
    WalkPairsBases(qs, ts, terms);
  }

  lemma TenAFiveBases()
    ensures Bases(CharTokens("10A5")) == [false, true] + Repeat(false, 5)
  {
    var ts := CharTokens("10A5");
    assert ts == ["1", "0", "A", "5"];
    assert KindOf("1") == Matches(1) && KindOf("0") == Matches(0) by {
      assert DigitsValue("1") == 1 && DigitsValue("0") == 0;
    }
    assert KindOf("A") == Mismatches(1);
    assert KindOf("5") == Matches(5) by {
      assert DigitsValue("5") == 5;
    }
    assert ts[..3] == ["1", "0", "A"] && ts[..3][..2] == ["1", "0"] && ts[..2][..1] == ["1"];
    assert Bases(["1"]) == [false];
    assert Bases(["1", "0"]) == [false];
    assert Bases(["1", "0", "A"]) == [false, true];
  }

  /** The legacy walk scores deleted bases: for `5^AC5` it consumes 12 qualities
    * where the string describes 10 read bases, and it scores the sixth and
    * seventh qualities as mismatches where the string has only matches. */
  lemma LegacyScoresDeletions(qs: seq<int>, terms: LogTerms)
    ensures "5^AC5" == RenderMd(5, [(MdDeletion("AC"), 5)])
    ensures QueryBases(5, [(MdDeletion("AC"), 5)]) == Repeat(false, 10)
    ensures WalkOf(qs, CharTokens("5^AC5"), terms).Ok?
    ensures WalkOf(qs, CharTokens("5^AC5"), terms).value.start == 12
    ensures Bases(CharTokens("5^AC5")) == Repeat(false, 5) + [true, true] + Repeat(false, 5)
  {
    FiveDelFive();
    FiveDelFiveChars(qs, terms);
    FiveDelFiveBases();
  }

  /** `5^AC5` is the MD string of five matches, a deletion of `AC` and five matches. */
  lemma FiveDelFive()
    ensures "5^AC5" == RenderMd(5, [(MdDeletion("AC"), 5)])
    ensures QueryBases(5, [(MdDeletion("AC"), 5)]) == Repeat(false, 10)
  {
    var edits := [(MdDeletion("AC"), 5)];
    assert NatToDigits(5) == "5";
    assert edits[1..] == [] && edits[..0] == [];
    assert RenderMd(5, edits) == "5" + ("^AC" + "5" + "");
    assert Repeat(false, 5) + Repeat(false, 5) == Repeat(false, 10);
  }

  /** Character by character, `5^AC5` reads as five matches, a skip, two
    * mismatches and five matches. */
  lemma FiveDelFiveChars(qs: seq<int>, terms: LogTerms)
    ensures WalkOf(qs, CharTokens("5^AC5"), terms).Ok?
    ensures WalkOf(qs, CharTokens("5^AC5"), terms).value.start == 12
  {
    var ts := CharTokens("5^AC5");
    FiveDelFiveBases();
    assert forall k :: 0 <= k < |ts| ==> !KindOf(ts[k]).Malformed? by {
      assert ts == ["5", "^", "A", "C", "5"];
    }
    WalkOkIff(qs, ts, terms);
    WalkPairsBases(qs, ts, terms);
  }

  lemma FiveDelFiveBases()
    ensures Bases(CharTokens("5^AC5")) == Repeat(false, 5) + [true, true] + Repeat(false, 5)
  {
    var ts := CharTokens("5^AC5");
    assert ts == ["5", "^", "A", "C", "5"];
    assert KindOf("5") == Matches(5) by {
      assert DigitsValue("5") == 5;
    }
    assert KindOf("^") == Skip;
    assert KindOf("A") == Mismatches(1) && KindOf("C") == Mismatches(1);
    BasesAppendTwo([], "5", "^");
    assert [] + ["5", "^"] == ["5", "^"];
    BasesAppendTwo(["5", "^"], "A", "C");
    assert ["5", "^"] + ["A", "C"] == ts[..4];
    assert Bases(ts[..4]) == Repeat(false, 5) + [true, true];
  }

  // ---------------------------------------------------------------------------
  // Per-allele scoring over alignment records

  /** An alignment record as the legacy scorer reads it; the quality string,
    * query name, CIGAR string and MD tag may be missing. */
  datatype LegacyRecord = LegacyRecord(qcfail: bool, supplementary: bool, proper: bool,
                                       qualities: Option<seq<int>>, qname: Option<string>,
                                       cigar: Option<string>, md: Option<string>)

  /** A row of the legacy table: a read pair's score for an allele (no gene column). */
  datatype LegacyRow = LegacyRow(ids: string, score: real, allele: string)

  /** Not QC-failed, not supplementary and properly paired: the record's fields are read. */
  predicate Screened(rec: LegacyRecord)
  {
    !rec.qcfail && !rec.supplementary && rec.proper
  }

  predicate Complete(rec: LegacyRecord)
  {
    rec.qualities.Some? && rec.qname.Some? && rec.cigar.Some? && rec.md.Some?
  }

  /** The records that are scored: screened, complete, without unaligned events
    * (as `unaligned` counts them) and with at most `minEcnt` mismatch events. */
  function Admitted(minEcnt: int, unaligned: string -> int): LegacyRecord -> bool
  {
    (rec: LegacyRecord) =>
      Screened(rec) && Complete(rec) && unaligned(rec.cigar.value) <= 0 && CountMismatchEvents(rec.md.value) <= minEcnt
  }

  /** A complete record's id and score (score 0 where its MD tag raises). */
  function LegacyScored(terms: LogTerms): LegacyRecord -> Scored
  {
    (rec: LegacyRecord) =>
      if !Complete(rec) then Scored("", 0.0)
      else match LegacyLogLikelihood(rec.qualities.value, rec.md.value, terms)
        case Ok(s) => Scored(rec.qname.value, s)
        case Err(_) => Scored(rec.qname.value, 0.0)
  }

  /** What one record contributes to the `ids` and `scores` columns: nothing,
    * its id and score, or the exception it raises. */
  function Contribution(rec: LegacyRecord, minEcnt: int, unaligned: string -> int, terms: LogTerms): Result<Option<Scored>>
  {
    if rec.qcfail || rec.supplementary then Ok(None)
    else if !rec.proper then Ok(None)
    else if rec.qualities.None? then Err(MissingField("QUAL"))
    else if rec.qname.None? then Err(MissingField("QNAME"))
    else if rec.cigar.None? then Err(MissingField("CIGAR"))
    else if rec.md.None? then Err(MissingField("MD"))
    else if unaligned(rec.cigar.value) > 0 then Ok(None)
    else if CountMismatchEvents(rec.md.value) > minEcnt then Ok(None)
    else match LegacyLogLikelihood(rec.qualities.value, rec.md.value, terms)
      case Err(e) => Err(e)
      case Ok(s) => Ok(Some(Scored(rec.qname.value, s)))
  }

  /** The `ids` and `scores` columns after the records, up to the first exception. */
  function Evidence(records: seq<LegacyRecord>, minEcnt: int, unaligned: string -> int, terms: LogTerms): Result<seq<Scored>>
  {
    if records == [] then Ok([])
    else match Evidence(records[..|records| - 1], minEcnt, unaligned, terms)
      case Err(e) => Err(e)
      case Ok(ev) =>
        match Contribution(records[|records| - 1], minEcnt, unaligned, terms)
        case Err(e) => Err(e)
        case Ok(None) => Ok(ev)
        case Ok(Some(x)) => Ok(ev + [x])
  }

  function LegacyTag(xs: seq<Scored>, allele: string): seq<LegacyRow>
  {
    seq(|xs|, i requires 0 <= i < |xs| => LegacyRow(xs[i].qname, xs[i].score, allele))
  }

  /** The legacy table: the ids that occur exactly twice, each with the sum of
    * its scores, tagged with the allele. */
  function LegacyScores(allele: string, records: seq<LegacyRecord>, minEcnt: int, unaligned: string -> int, terms: LogTerms)
    : Result<seq<LegacyRow>>
  {
    match Evidence(records, minEcnt, unaligned, terms)
    case Err(e) => Err(e)
    case Ok(ev) => Ok(LegacyTag(PairSums(PairFilter(ev, ScoredName)), allele))
  }

  /** The parallel `ids` and `scores` lists as one column of pairs. */
  function Zip(ids: seq<string>, scores: seq<real>): seq<Scored>
    requires |ids| == |scores|
  {
    seq(|ids|, k requires 0 <= k < |ids| => Scored(ids[k], scores[k]))
  }

  /** Once a prefix of the records has raised, later records do not matter. */
  lemma {:induction false} EvidenceErrExtends(records: seq<LegacyRecord>, k: nat, minEcnt: int, unaligned: string -> int, terms: LogTerms)
    requires k <= |records| && Evidence(records[..k], minEcnt, unaligned, terms).Err?
    ensures Evidence(records, minEcnt, unaligned, terms) == Evidence(records[..k], minEcnt, unaligned, terms)
    decreases |records|
  {
    if k < |records| {
      var init := records[..|records| - 1];
      assert init[..k] == records[..k];
      EvidenceErrExtends(init, k, minEcnt, unaligned, terms);
    } else {
      assert records[..k] == records;
    }
  }

  /** One more record extends the columns by its contribution. */
  lemma EvidenceNext(records: seq<LegacyRecord>, i: nat, ev: seq<Scored>, minEcnt: int, unaligned: string -> int, terms: LogTerms)
    requires i < |records| && Evidence(records[..i], minEcnt, unaligned, terms) == Ok(ev)
    ensures Evidence(records[..i + 1], minEcnt, unaligned, terms) ==
              match Contribution(records[i], minEcnt, unaligned, terms)
              case Err(e) => Err(e)
              case Ok(None) => Ok(ev)
              case Ok(Some(x)) => Ok(ev + [x])
  {
    assert records[..i + 1][..i] == records[..i];
  }

  /** The legacy `score_per_allele` over the records fetched for `allele`:
    * skipped records add nothing, a missing field raises, and every scored
    * record appends its id and its score together. */
  method LegacyScorePerAllele(allele: string, records: seq<LegacyRecord>, minEcnt: int, unaligned: string -> int, terms: LogTerms)
    returns (r: Result<seq<LegacyRow>>)
    ensures r == LegacyScores(allele, records, minEcnt, unaligned, terms)
  {
    var ids: seq<string> := [];
    var scores: seq<real> := [];
    var i := 0;
    assert records[..0] == [];
    assert Zip(ids, scores) == [];
    while i < |records|
      invariant 0 <= i <= |records|
      invariant |ids| == |scores|
      invariant Evidence(records[..i], minEcnt, unaligned, terms) == Ok(Zip(ids, scores))
    {
      EvidenceNext(records, i, Zip(ids, scores), minEcnt, unaligned, terms);
      var aln := records[i];
      if aln.qcfail || aln.supplementary {
        i := i + 1;
        continue;
      }
      if !aln.proper {
        i := i + 1;
        continue;
      }
      if aln.qualities.None? || aln.qname.None? || aln.cigar.None? || aln.md.None? {
        EvidenceErrExtends(records, i + 1, minEcnt, unaligned, terms);
        var field := if aln.qualities.None? then "QUAL" else if aln.qname.None? then "QNAME"
                     else if aln.cigar.None? then "CIGAR" else "MD";
        return Err(MissingField(field));
      }
      if unaligned(aln.cigar.value) > 0 {
        i := i + 1;
        continue;
      }
      if CountMismatchEvents(aln.md.value) > minEcnt {
        i := i + 1;
        continue;
      }
      var s := LegacyScoreLogLikelihood(aln.qualities.value, aln.md.value, terms);
      if s.Err? {
        EvidenceErrExtends(records, i + 1, minEcnt, unaligned, terms);
        return Err(s.error);
      }
      ids := ids + [aln.qname.value];
      scores := scores + [s.value];
      assert Zip(ids, scores) == Zip(ids[..|ids| - 1], scores[..|scores| - 1]) + [Scored(aln.qname.value, s.value)];
      i := i + 1;
    }
    assert records[..i] == records;
    return Ok(LegacyTag(PairSums(PairFilter(Zip(ids, scores), ScoredName)), allele));
  }

  /** A record raises exactly when it is screened in and a field is missing, or
    * it is admitted and its MD tag raises; otherwise it contributes its id and
    * score exactly when it is admitted. */
  lemma ContributionSpec(rec: LegacyRecord, minEcnt: int, unaligned: string -> int, terms: LogTerms)
    ensures var c := Contribution(rec, minEcnt, unaligned, terms);
            && (c.Err? <==>
                  Screened(rec)
                  && (!Complete(rec)
                      || (Admitted(minEcnt, unaligned)(rec)
                          && LegacyLogLikelihood(rec.qualities.value, rec.md.value, terms).Err?)))
            && (c.Ok? ==> (c.value.Some? <==> Admitted(minEcnt, unaligned)(rec)))
            && (c.Ok? && c.value.Some? ==> c.value.value == LegacyScored(terms)(rec))
  {
  }

  /** The columns are complete exactly when no record raises, and then they hold
    * the id and score of every admitted record, in order. */
  lemma {:induction false} EvidenceOk(records: seq<LegacyRecord>, minEcnt: int, unaligned: string -> int, terms: LogTerms)
    ensures Evidence(records, minEcnt, unaligned, terms).Ok?
            <==> forall k :: 0 <= k < |records| ==> Contribution(records[k], minEcnt, unaligned, terms).Ok?
    ensures Evidence(records, minEcnt, unaligned, terms).Ok? ==>
              Evidence(records, minEcnt, unaligned, terms).value
              == MapSeq(Filter(records, Admitted(minEcnt, unaligned)), LegacyScored(terms))
    decreases |records|
  {
    if records != [] {
      var init, last := records[..|records| - 1], records[|records| - 1];
      var adm := Admitted(minEcnt, unaligned);
      EvidenceOk(init, minEcnt, unaligned, terms);
      ContributionSpec(last, minEcnt, unaligned, terms);
      assert records == init + [last];
      FilterAppend(init, [last], adm);
      assert Filter([last], adm) == if adm(last) then [last] else [];
      MapSeqAppend(Filter(init, adm), Filter([last], adm), LegacyScored(terms));
      if forall k :: 0 <= k < |records| ==> Contribution(records[k], minEcnt, unaligned, terms).Ok? {
        forall k | 0 <= k < |init|
          ensures Contribution(init[k], minEcnt, unaligned, terms).Ok?
        {
          assert init[k] == records[k];
        }
      }
    }
  }

  /** A raised exception is the one of the first record that raises. */
  lemma {:induction false} EvidenceFirstError(records: seq<LegacyRecord>, minEcnt: int, unaligned: string -> int, terms: LogTerms)
    requires Evidence(records, minEcnt, unaligned, terms).Err?
    ensures exists k :: 0 <= k < |records|
              && Contribution(records[k], minEcnt, unaligned, terms) == Err(Evidence(records, minEcnt, unaligned, terms).error)
              && forall j :: 0 <= j < k ==> Contribution(records[j], minEcnt, unaligned, terms).Ok?
    decreases |records|
  {
    var init, last := records[..|records| - 1], records[|records| - 1];
    if Evidence(init, minEcnt, unaligned, terms).Err? {
      EvidenceFirstError(init, minEcnt, unaligned, terms);
      var k :| 0 <= k < |init|
               && Contribution(init[k], minEcnt, unaligned, terms) == Err(Evidence(init, minEcnt, unaligned, terms).error)
               && forall j :: 0 <= j < k ==> Contribution(init[j], minEcnt, unaligned, terms).Ok?;
      assert records[k] == init[k];
      assert forall j :: 0 <= j < k ==> records[j] == init[j];
    } else {
      EvidenceOk(init, minEcnt, unaligned, terms);
      var k := |records| - 1;
      assert forall j :: 0 <= j < k ==> records[j] == init[j];
    }
  }

  /** The pair filter and the per-id sums over a column of ids and scores: ids are
    * distinct, each occurs exactly twice in the column and sums both scores, and
    * every id that occurs twice is there. */
  lemma PairTotals(ev: seq<Scored>)
    ensures var sums := PairSums(PairFilter(ev, ScoredName));
            && (forall i, j :: 0 <= i < j < |sums| ==> sums[i].qname != sums[j].qname)
            && (forall p :: p in sums ==>
                  Count(MapSeq(ev, ScoredName), p.qname) == 2 && p.score == SumWhere(ev, ScoredName, ScoredValue, p.qname))
            && (forall x :: x in ev && Count(MapSeq(ev, ScoredName), x.qname) == 2 ==>
                  exists p :: p in sums && p.qname == x.qname)
  {
    var kept := PairFilter(ev, ScoredName);
    var names := Distinct(MapSeq(kept, ScoredName));
    var sums := PairSums(kept);
    forall i, j | 0 <= i < j < |sums|
      ensures sums[i].qname != sums[j].qname
    {
      assert sums[i].qname == names[i] && sums[j].qname == names[j];
    }
    forall p | p in sums
      ensures Count(MapSeq(ev, ScoredName), p.qname) == 2
      ensures p.score == SumWhere(ev, ScoredName, ScoredValue, p.qname)
    {
      var i :| 0 <= i < |sums| && sums[i] == p;
      assert p.qname == names[i] && names[i] in MapSeq(kept, ScoredName);
      CountPositive(MapSeq(kept, ScoredName), names[i]);
      PairFilterKeys(ev, ScoredName, names[i]);
      SumWhereFilterKeys(ev, ScoredName, Twice(MapSeq(ev, ScoredName)), ScoredValue, names[i]);
    }
    forall x | x in ev && Count(MapSeq(ev, ScoredName), x.qname) == 2
      ensures exists p :: p in sums && p.qname == x.qname
    {
      PairFilterKeys(ev, ScoredName, x.qname);
      CountPositive(MapSeq(kept, ScoredName), x.qname);
      var k :| 0 <= k < |MapSeq(kept, ScoredName)| && MapSeq(kept, ScoredName)[k] == x.qname;
      var i :| 0 <= i < |names| && names[i] == x.qname;
      assert sums[i] in sums && sums[i].qname == x.qname;
    }
  }

  /** The legacy table: it is produced exactly when no record raises; then its
    * rows carry the allele, their ids are distinct, each id occurs exactly
    * twice among the admitted records and scores the sum of both, and every
    * such id has a row. */
  lemma LegacyScoresSpec(allele: string, records: seq<LegacyRecord>, minEcnt: int, unaligned: string -> int, terms: LogTerms)
    ensures var r := LegacyScores(allele, records, minEcnt, unaligned, terms);
            var ev := MapSeq(Filter(records, Admitted(minEcnt, unaligned)), LegacyScored(terms));
            && (r.Ok? <==> forall k :: 0 <= k < |records| ==> Contribution(records[k], minEcnt, unaligned, terms).Ok?)
            && (r.Ok? ==>
                  && (forall i, j :: 0 <= i < j < |r.value| ==> r.value[i].ids != r.value[j].ids)
                  && (forall row :: row in r.value ==>
                        row.allele == allele
                        && Count(MapSeq(ev, ScoredName), row.ids) == 2
                        && row.score == SumWhere(ev, ScoredName, ScoredValue, row.ids))
                  && (forall x :: x in ev && Count(MapSeq(ev, ScoredName), x.qname) == 2 ==>
                        exists row :: row in r.value && row.ids == x.qname))
  {
    var r := LegacyScores(allele, records, minEcnt, unaligned, terms);
    var ev := MapSeq(Filter(records, Admitted(minEcnt, unaligned)), LegacyScored(terms));
    EvidenceOk(records, minEcnt, unaligned, terms);
    if r.Ok? {
      assert r.value == LegacyTag(PairSums(PairFilter(ev, ScoredName)), allele);
      LegacyRows(allele, ev, r.value);
    }
  }

  /** The tagged pair sums of the scored evidence. */
  lemma LegacyRows(allele: string, ev: seq<Scored>, rows: seq<LegacyRow>)
    requires rows == LegacyTag(PairSums(PairFilter(ev, ScoredName)), allele)
    ensures forall i, j :: 0 <= i < j < |rows| ==> rows[i].ids != rows[j].ids
    ensures forall row :: row in rows ==>
              row.allele == allele
              && Count(MapSeq(ev, ScoredName), row.ids) == 2
              && row.score == SumWhere(ev, ScoredName, ScoredValue, row.ids)
    ensures forall x :: x in ev && Count(MapSeq(ev, ScoredName), x.qname) == 2 ==>
              exists row :: row in rows && row.ids == x.qname
  {
    LegacyRowsDistinct(allele, ev, rows);
    forall row | row in rows
      ensures row.allele == allele && Count(MapSeq(ev, ScoredName), row.ids) == 2
      ensures row.score == SumWhere(ev, ScoredName, ScoredValue, row.ids)
    {
      var i :| 0 <= i < |rows| && rows[i] == row;
      LegacyRowOf(allele, ev, rows, i);
    }
    forall x | x in ev && Count(MapSeq(ev, ScoredName), x.qname) == 2
      ensures exists row :: row in rows && row.ids == x.qname
    {
      LegacyRowsCover(allele, ev, rows, x);
    }
  }

  lemma LegacyRowsDistinct(allele: string, ev: seq<Scored>, rows: seq<LegacyRow>)
    requires rows == LegacyTag(PairSums(PairFilter(ev, ScoredName)), allele)
    ensures forall i, j :: 0 <= i < j < |rows| ==> rows[i].ids != rows[j].ids
  {
    var sums := PairSums(PairFilter(ev, ScoredName));
    PairTotals(ev);
    forall i, j | 0 <= i < j < |rows|
      ensures rows[i].ids != rows[j].ids
    {
      assert rows[i].ids == sums[i].qname && rows[j].ids == sums[j].qname;
    }
  }

  lemma LegacyRowsCover(allele: string, ev: seq<Scored>, rows: seq<LegacyRow>, x: Scored)
    requires rows == LegacyTag(PairSums(PairFilter(ev, ScoredName)), allele)
    requires x in ev && Count(MapSeq(ev, ScoredName), x.qname) == 2
    ensures exists row :: row in rows && row.ids == x.qname
  {
    var sums := PairSums(PairFilter(ev, ScoredName));
    PairTotals(ev);
    var p :| p in sums && p.qname == x.qname;
    var i :| 0 <= i < |sums| && sums[i] == p;
    assert rows[i] in rows;
  }

  lemma LegacyRowOf(allele: string, ev: seq<Scored>, rows: seq<LegacyRow>, i: nat)
    requires rows == LegacyTag(PairSums(PairFilter(ev, ScoredName)), allele)
    requires i < |rows|
    ensures rows[i].allele == allele && Count(MapSeq(ev, ScoredName), rows[i].ids) == 2
    ensures rows[i].score == SumWhere(ev, ScoredName, ScoredValue, rows[i].ids)
  {
    var sums := PairSums(PairFilter(ev, ScoredName));
    PairTotals(ev);
    assert sums[i] in sums;
  }
}
