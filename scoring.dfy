// Scoring candidate alleles from alignment evidence, and the two-stage
// resolution of the typed alleles.
//
// Score tables are sequences of rows; a group-by is a sum over the rows that
// share a key, listed in order of the key's first occurrence.  The per-base log
// terms are parameters: the model does not compute logarithms or powers of ten.

module Scoring {
  import opened Outcomes
  import opened Seqs
  import opened Text
  import opened HlaAllele

  // ---------------------------------------------------------------------------
  // The MD-token walk

  /** The log term of one base quality, for a mismatched and for a matched base
    * (the logarithm of the scaled error or success probability). */
  datatype LogTerms = LogTerms(onMismatch: int -> real, onMatch: int -> real)

  /** How the walk treats one MD token. */
  datatype TokenKind = Skip | Mismatches(n: nat) | Matches(n: nat) | Malformed

  /** A token starting with `^` is a deletion and is skipped; an alphabetic token
    * is that many mismatches; a digit string is that many matches; `int()` of
    * anything else raises. */
  function KindOf(t: string): TokenKind
  {
    if |t| > 0 && t[0] == '^' then Skip
    else if IsAlpha(t) then Mismatches(|t|)
    else if |t| > 0 && AllDigits(t) then Matches(DigitsValue(t))
    else Malformed
  }

  /** `qs[lo:hi]` in Python, for `lo <= hi`: bounds past the end are cut off. */
  function PySlice(qs: seq<int>, lo: nat, hi: nat): seq<int>
    requires lo <= hi
  {
    if lo >= |qs| then [] else if hi >= |qs| then qs[lo..] else qs[lo..hi]
  }

  /** The terms `f(q)` for the qualities `qs`. */
  function Terms(qs: seq<int>, f: int -> real): (r: seq<real>)
    ensures |r| == |qs| && forall k :: 0 <= k < |qs| ==> r[k] == f(qs[k])
  {
    if qs == [] then [] else [f(qs[0])] + Terms(qs[1..], f)
  }

  /** The walk's accumulators: the score so far and the quality cursor. */
  datatype Walk = Walk(score: real, start: nat)

  /** One iteration of the walk, over the token `t`. */
  function Step(qs: seq<int>, w: Walk, t: string, terms: LogTerms): Result<Walk>
  {
    match KindOf(t)
    case Skip => Ok(w)
    case Mismatches(n) =>
      Ok(Walk(w.score + Sum(Terms(PySlice(qs, w.start, w.start + n), terms.onMismatch)), w.start + n))
    case Matches(n) =>
      Ok(Walk(w.score + Sum(Terms(PySlice(qs, w.start, w.start + n), terms.onMatch)), w.start + n))
    case Malformed => Err(ScoreError)
  }

  /** The accumulators after walking the tokens `mds` from the first quality. */
  function WalkOf(qs: seq<int>, mds: seq<string>, terms: LogTerms): Result<Walk>
  {
    if mds == [] then Ok(Walk(0.0, 0))
    else match WalkOf(qs, mds[..|mds| - 1], terms)
      case Err(e) => Err(e)
      case Ok(w) => Step(qs, w, mds[|mds| - 1], terms)
  }

  /** The log-likelihood of one alignment, or the error its MD tokens raise. */
  function LogLikelihood(qs: seq<int>, mds: seq<string>, terms: LogTerms): Result<real>
  {
    match WalkOf(qs, mds, terms)
    case Ok(w) => Ok(w.score)
    case Err(e) => Err(e)
  }

  /** Once a prefix of the tokens has raised, so has the whole walk. */
  lemma {:induction false} WalkErrExtends(qs: seq<int>, mds: seq<string>, k: nat, terms: LogTerms)
    requires k <= |mds| && WalkOf(qs, mds[..k], terms) == Err(ScoreError)
    ensures WalkOf(qs, mds, terms) == Err(ScoreError)
    decreases |mds|
  {
    if k == |mds| {
      assert mds[..k] == mds;
    } else {
      var init := mds[..|mds| - 1];
      assert init[..k] == mds[..k];
      WalkErrExtends(qs, init, k, terms);
    }
  }

  /** Walking one more token is one more step. */
  lemma WalkOfNext(qs: seq<int>, mds: seq<string>, i: nat, terms: LogTerms)
    requires i < |mds| && WalkOf(qs, mds[..i], terms).Ok?
    ensures WalkOf(qs, mds[..i + 1], terms) == Step(qs, WalkOf(qs, mds[..i], terms).value, mds[i], terms)
  {
    var p := mds[..i + 1];
    assert p[..|p| - 1] == mds[..i];
    assert p[|p| - 1] == mds[i];
  }

  /** The walk of `score_log_liklihood`: for every token that is not a deletion,
    * the next qualities are scored as mismatches or as matches and the cursor
    * moves past them. */
  method ScoreLogLikelihood(bqs: seq<int>, mds: seq<string>, terms: LogTerms) returns (r: Result<real>)
    ensures r == LogLikelihood(bqs, mds, terms)
  {
    var score := 0.0;
    var start: nat := 0;
    var i := 0;
    while i < |mds|
      invariant 0 <= i <= |mds|
      invariant WalkOf(bqs, mds[..i], terms) == Ok(Walk(score, start))
    {
      WalkOfNext(bqs, mds, i, terms);
      var next := ScoreToken(bqs, Walk(score, start), mds[i], terms);
      if next.Err? {
        WalkErrExtends(bqs, mds, i + 1, terms);
        return Err(ScoreError);
      }
      score, start := next.value.score, next.value.start;
      i := i + 1;
    }
    assert mds[..i] == mds;
    return Ok(score);
  }

  /** One pass of the loop of `score_log_liklihood`: a deletion token is
    * skipped; otherwise the token's qualities are scored as mismatches (an
    * alphabetic token) or as matches (a digit string), and `int()` raises on
    * anything else. */
  method ScoreToken(bqs: seq<int>, w: Walk, t: string, terms: LogTerms) returns (r: Result<Walk>)
    ensures r == Step(bqs, w, t, terms)
  {
    if |t| > 0 && t[0] == '^' {
      return Ok(w);
    }
    var end: nat;
    var block: seq<real>;
    if IsAlpha(t) {
      // mismatches
      end := w.start + |t|;
      block := Terms(PySlice(bqs, w.start, end), terms.onMismatch);
    } else if |t| > 0 && AllDigits(t) {
      // matches
      end := w.start + DigitsValue(t);
      block := Terms(PySlice(bqs, w.start, end), terms.onMatch);
    } else {
      return Err(ScoreError);
    }
    return Ok(Walk(w.score + Sum(block), end));
  }

  /** The walk raises exactly when some token is neither a deletion, alphabetic
    * nor a digit string; a token asking for more qualities than remain is no error. */
  lemma {:induction false} WalkOkIff(qs: seq<int>, mds: seq<string>, terms: LogTerms)
    ensures WalkOf(qs, mds, terms).Ok? <==> forall k :: 0 <= k < |mds| ==> !KindOf(mds[k]).Malformed?
  {
    if mds != [] {
      var init := mds[..|mds| - 1];
      WalkOkIff(qs, init, terms);
      assert forall k :: 0 <= k < |init| ==> init[k] == mds[k];
    }
  }

  /** The bases a token stands for: `true` for a mismatch, `false` for a match. */
  function TokenBases(t: string): seq<bool>
  {
    match KindOf(t)
    case Mismatches(n) => Repeat(true, n)
    case Matches(n) => Repeat(false, n)
    case _ => []
  }

  function Repeat(b: bool, n: nat): seq<bool>
  {
    seq(n, _ => b)
  }

  /** The bases of the alignment spelled out by its MD tokens, deletions left out. */
  function Bases(mds: seq<string>): seq<bool>
  {
    if mds == [] then [] else Bases(mds[..|mds| - 1]) + TokenBases(mds[|mds| - 1])
  }

  /** The reference score: the k-th quality is scored by the kind of the k-th
    * spelled-out base, as far as both reach. */
  function PairedTerms(qs: seq<int>, bases: seq<bool>, terms: LogTerms): seq<real>
  {
    seq(if |qs| < |bases| then |qs| else |bases|,
        k requires 0 <= k < |qs| && k < |bases| => if bases[k] then terms.onMismatch(qs[k]) else terms.onMatch(qs[k]))
  }

  lemma PairedTermsExtend(qs: seq<int>, bases: seq<bool>, b: bool, n: nat, terms: LogTerms, f: int -> real)
    requires f == if b then terms.onMismatch else terms.onMatch
    ensures PairedTerms(qs, bases + Repeat(b, n), terms)
         == PairedTerms(qs, bases, terms) + Terms(PySlice(qs, |bases|, |bases| + n), f)
  {
    var lhs := PairedTerms(qs, bases + Repeat(b, n), terms);
    var rhs := PairedTerms(qs, bases, terms) + Terms(PySlice(qs, |bases|, |bases| + n), f);
    assert |lhs| == |rhs|;
    forall k | 0 <= k < |lhs|
      ensures lhs[k] == rhs[k]
    {
      if k >= |bases| {
        assert PySlice(qs, |bases|, |bases| + n)[k - |bases|] == qs[k];
      }
    }
  }

  /** The walk agrees with the reference pairing: the cursor ends after every
    * spelled-out base, and the score sums the paired terms.  So deletions and
    * `0` tokens consume nothing, and qualities beyond the last token, or tokens
    * beyond the last quality, contribute nothing. */
  lemma {:induction false} WalkPairsBases(qs: seq<int>, mds: seq<string>, terms: LogTerms)
    requires WalkOf(qs, mds, terms).Ok?
    ensures WalkOf(qs, mds, terms).value.start == |Bases(mds)|
    ensures WalkOf(qs, mds, terms).value.score == Sum(PairedTerms(qs, Bases(mds), terms))
  {
    if mds != [] {
      var init := mds[..|mds| - 1];
      var t := mds[|mds| - 1];
      WalkPairsBases(qs, init, terms);
      var w := WalkOf(qs, init, terms).value;
      assert WalkOf(qs, mds, terms) == Step(qs, w, t, terms);
      assert Bases(mds) == Bases(init) + TokenBases(t);
      StepPairsBases(qs, w, Bases(init), t, terms);
    }
  }

  /** One step of the walk scores the token's spelled-out bases against the
    * next qualities. */
  lemma StepPairsBases(qs: seq<int>, w: Walk, bases: seq<bool>, t: string, terms: LogTerms)
    requires Step(qs, w, t, terms).Ok?
    requires w.start == |bases| && w.score == Sum(PairedTerms(qs, bases, terms))
    ensures Step(qs, w, t, terms).value.start == |bases + TokenBases(t)|
    ensures Step(qs, w, t, terms).value.score == Sum(PairedTerms(qs, bases + TokenBases(t), terms))
  {
    match KindOf(t)
    case Skip =>
      assert bases + TokenBases(t) == bases;
    case Mismatches(n) =>
      assert TokenBases(t) == Repeat(true, n);
      BlockPairsBases(qs, w, bases, true, n, terms, terms.onMismatch);
    case Matches(n) =>
      assert TokenBases(t) == Repeat(false, n);
      BlockPairsBases(qs, w, bases, false, n, terms, terms.onMatch);
  }

  lemma BlockPairsBases(qs: seq<int>, w: Walk, bases: seq<bool>, b: bool, n: nat, terms: LogTerms, f: int -> real)
    requires f == if b then terms.onMismatch else terms.onMatch
    requires w.start == |bases| && w.score == Sum(PairedTerms(qs, bases, terms))
    ensures w.start + n == |bases + Repeat(b, n)|
    ensures w.score + Sum(Terms(PySlice(qs, w.start, w.start + n), f)) == Sum(PairedTerms(qs, bases + Repeat(b, n), terms))
  {
    PairedTermsExtend(qs, bases, b, n, terms, f);
    SumAppend(PairedTerms(qs, bases, terms), Terms(PySlice(qs, |bases|, |bases| + n), f));
  }

  // ---------------------------------------------------------------------------
  // Per-allele scoring

  /** One alignment to a candidate allele, as the BAM walker reports it: the
    * query name, base qualities, MD tokens, proper-pair flag and the numbers of
    * indel and mismatch events. */
  datatype Alignment = Alignment(qname: string, bqs: seq<int>, mds: seq<string>, proper: bool,
                                 indelEcnt: int, mmEcnt: int)

  /** A scored alignment or read pair. */
  datatype Scored = Scored(qname: string, score: real)

  /** A row of a score table: a read pair's score for an allele of a gene. */
  datatype ScoreRow = ScoreRow(qname: string, score: real, allele: string, gene: string)

  function QnameOf(a: Alignment): string { a.qname }
  function ScoredName(s: Scored): string { s.qname }
  function ScoredValue(s: Scored): real { s.score }

  /** Good evidence: no indel, at most `minEcnt` mismatch events, properly paired. */
  function GoodEvidence(minEcnt: int): Alignment -> bool
  {
    (a: Alignment) => a.indelEcnt == 0 && a.mmEcnt <= minEcnt && a.proper
  }

  /** The alignments that are good evidence, then those whose mate also is. */
  function PairedEvidence(alns: seq<Alignment>, minEcnt: int): seq<Alignment>
  {
    PairFilter(Filter(alns, GoodEvidence(minEcnt)), QnameOf)
  }

  /** The score of an alignment whose MD tokens are well formed (0 otherwise). */
  function AlignmentScore(terms: LogTerms): Alignment -> real
  {
    (a: Alignment) => match LogLikelihood(a.bqs, a.mds, terms) case Ok(s) => s case Err(_) => 0.0
  }

  /** Each alignment scored, in order; the first malformed MD raises. */
  function ScoreEach(alns: seq<Alignment>, terms: LogTerms): (r: Result<seq<Scored>>)
    ensures r.Ok? <==> forall k :: 0 <= k < |alns| ==> LogLikelihood(alns[k].bqs, alns[k].mds, terms).Ok?
    ensures r.Ok? ==> r.value == MapSeq(alns, ScoredWith(terms))
  {
    if alns == [] then Ok([])
    else match LogLikelihood(alns[0].bqs, alns[0].mds, terms)
      case Err(e) => Err(e)
      case Ok(s) =>
        match ScoreEach(alns[1..], terms)
        case Err(e) => Err(e)
        case Ok(rest) =>
          assert AlignmentScore(terms)(alns[0]) == s;
          assert ScoredWith(terms)(alns[0]) == Scored(alns[0].qname, s);
          assert MapSeq(alns, ScoredWith(terms)) == [ScoredWith(terms)(alns[0])] + MapSeq(alns[1..], ScoredWith(terms));
          Ok([Scored(alns[0].qname, s)] + rest)
  }

  function ScoredWith(terms: LogTerms): Alignment -> Scored
  {
    (a: Alignment) => Scored(a.qname, AlignmentScore(terms)(a))
  }

  /** One entry per name, in order of first occurrence, holding the sum of that
    * name's scores (`group_by(name).agg(sum)`). */
  function PairSums(xs: seq<Scored>): seq<Scored>
  {
    var names := Distinct(MapSeq(xs, ScoredName));
    seq(|names|, i requires 0 <= i < |names| => Scored(names[i], SumWhere(xs, ScoredName, ScoredValue, names[i])))
  }

  /** The gene of a decomposed name: its prefix followed by its locus. */
  function GeneOf(n: HlaAlleleName): string { n.prefix + n.locus }

  function Tag(xs: seq<Scored>, allele: string, gene: string): seq<ScoreRow>
  {
    seq(|xs|, i requires 0 <= i < |xs| => ScoreRow(xs[i].qname, xs[i].score, allele, gene))
  }

  /** The read pairs of the good evidence, each with the sum of its mates'
    * scores; `None` when no pair survives. */
  function ScoreEvidence(alns: seq<Alignment>, minEcnt: int, terms: LogTerms): Result<Option<seq<Scored>>>
  {
    var kept := PairedEvidence(alns, minEcnt);
    if kept == [] then Ok(None)
    else match ScoreEach(kept, terms)
      case Err(e) => Err(e)
      case Ok(scored) => Ok(Some(PairSums(scored)))
  }

  /** `score_per_allele` over the alignments to `allele`: no table when no read
    * pair survives the filters, otherwise one row per read pair. */
  function ScorePerAllele(allele: string, alns: seq<Alignment>, minEcnt: int, terms: LogTerms)
    : Result<Option<seq<ScoreRow>>>
  {
    match Decompose(allele, DefaultGrammar)
    case Err(e) => Err(e)
    case Ok(name) =>
      match ScoreEvidence(alns, minEcnt, terms)
      case Err(e) => Err(e)
      case Ok(None) => Ok(None)
      case Ok(Some(pairs)) => Ok(Some(Tag(pairs, allele, GeneOf(name))))
  }

  /** No read pair is left exactly when no read name occurs twice among the
    * good evidence. */
  lemma EvidenceNone(alns: seq<Alignment>, minEcnt: int, terms: LogTerms)
    ensures var ev := Filter(alns, GoodEvidence(minEcnt));
            ScoreEvidence(alns, minEcnt, terms) == Ok(None)
            <==> forall a :: a in ev ==> Count(MapSeq(ev, QnameOf), a.qname) != 2
  {
    var ev := Filter(alns, GoodEvidence(minEcnt));
    var kept := PairedEvidence(alns, minEcnt);
    forall a | a in ev
      ensures a in kept <==> Count(MapSeq(ev, QnameOf), a.qname) == 2
    {
      PairedMember(alns, minEcnt, a);
    }
    if kept != [] {
      PairedMember(alns, minEcnt, kept[0]);
    }
  }

  /** An alignment survives both filters exactly when it is good evidence and
    * its name occurs twice among the good evidence. */
  lemma PairedMember(alns: seq<Alignment>, minEcnt: int, a: Alignment)
    ensures var ev := Filter(alns, GoodEvidence(minEcnt));
            a in PairedEvidence(alns, minEcnt) <==> a in ev && Count(MapSeq(ev, QnameOf), a.qname) == 2
  {
    var ev := Filter(alns, GoodEvidence(minEcnt));
    var keep := KeyTest(QnameOf, Twice(MapSeq(ev, QnameOf)));
    assert PairedEvidence(alns, minEcnt) == Filter(ev, keep);
    assert keep(a) == Twice(MapSeq(ev, QnameOf))(QnameOf(a));
    assert Twice(MapSeq(ev, QnameOf))(a.qname) == (Count(MapSeq(ev, QnameOf), a.qname) == 2);
    FilterMember(ev, keep, a);
  }

  /** Scoring keeps names in order, and a name's total over the scored
    * alignments is its total over the alignments. */
  lemma ScoredNames(kept: seq<Alignment>, terms: LogTerms)
    requires ScoreEach(kept, terms).Ok?
    ensures MapSeq(ScoreEach(kept, terms).value, ScoredName) == MapSeq(kept, QnameOf)
    ensures forall q :: SumWhere(ScoreEach(kept, terms).value, ScoredName, ScoredValue, q)
                        == SumWhere(kept, QnameOf, AlignmentScore(terms), q)
  {
    var scored := ScoreEach(kept, terms).value;
    assert scored == MapSeq(kept, ScoredWith(terms));
    forall i | 0 <= i < |kept|
      ensures MapSeq(scored, ScoredName)[i] == MapSeq(kept, QnameOf)[i]
    {
      assert scored[i] == ScoredWith(terms)(kept[i]);
      assert ScoredWith(terms)(kept[i]).qname == kept[i].qname;
      assert MapSeq(scored, ScoredName)[i] == ScoredName(scored[i]);
      assert MapSeq(kept, QnameOf)[i] == QnameOf(kept[i]);
    }
    forall q
      ensures SumWhere(scored, ScoredName, ScoredValue, q) == SumWhere(kept, QnameOf, AlignmentScore(terms), q)
    {
      SumWhereMap(kept, ScoredWith(terms), QnameOf, AlignmentScore(terms), ScoredName, ScoredValue, q);
    }
  }

  /** The read pairs in terms of the alignments that survive both filters. */
  lemma EvidencePairsOf(alns: seq<Alignment>, minEcnt: int, terms: LogTerms)
    requires ScoreEvidence(alns, minEcnt, terms).Ok? && ScoreEvidence(alns, minEcnt, terms).value.Some?
    ensures var pairs := ScoreEvidence(alns, minEcnt, terms).value.value;
            var kept := PairedEvidence(alns, minEcnt);
            var names := Distinct(MapSeq(kept, QnameOf));
            && |pairs| == |names|
            && forall i :: 0 <= i < |pairs| ==>
                 pairs[i] == Scored(names[i], SumWhere(kept, QnameOf, AlignmentScore(terms), names[i]))
  {
    var kept := PairedEvidence(alns, minEcnt);
    ScoredNames(kept, terms);
  }

  /** The read pairs: names are distinct, each occurs exactly twice among the
    * good evidence and sums the scores of both mates. */
  lemma EvidencePairs(alns: seq<Alignment>, minEcnt: int, terms: LogTerms)
    requires ScoreEvidence(alns, minEcnt, terms).Ok? && ScoreEvidence(alns, minEcnt, terms).value.Some?
    ensures var pairs := ScoreEvidence(alns, minEcnt, terms).value.value;
            var ev := Filter(alns, GoodEvidence(minEcnt));
            && (forall i, j :: 0 <= i < j < |pairs| ==> pairs[i].qname != pairs[j].qname)
            && (forall p :: p in pairs ==>
                  Count(MapSeq(ev, QnameOf), p.qname) == 2
                  && p.score == SumWhere(ev, QnameOf, AlignmentScore(terms), p.qname))
  {
    var pairs := ScoreEvidence(alns, minEcnt, terms).value.value;
    var ev := Filter(alns, GoodEvidence(minEcnt));
    EvidencePairsOf(alns, minEcnt, terms);
    forall p | p in pairs
      ensures Count(MapSeq(ev, QnameOf), p.qname) == 2
      ensures p.score == SumWhere(ev, QnameOf, AlignmentScore(terms), p.qname)
    {
      var i :| 0 <= i < |pairs| && pairs[i] == p;
      EvidencePair(alns, minEcnt, terms, i);
    }
  }

  /** The i-th read pair. */
  lemma EvidencePair(alns: seq<Alignment>, minEcnt: int, terms: LogTerms, i: nat)
    requires ScoreEvidence(alns, minEcnt, terms).Ok? && ScoreEvidence(alns, minEcnt, terms).value.Some?
    requires i < |ScoreEvidence(alns, minEcnt, terms).value.value|
    ensures var p := ScoreEvidence(alns, minEcnt, terms).value.value[i];
            var ev := Filter(alns, GoodEvidence(minEcnt));
            && Count(MapSeq(ev, QnameOf), p.qname) == 2
            && p.score == SumWhere(ev, QnameOf, AlignmentScore(terms), p.qname)
  {
    var ev := Filter(alns, GoodEvidence(minEcnt));
    var kept := PairedEvidence(alns, minEcnt);
    var names := Distinct(MapSeq(kept, QnameOf));
    EvidencePairsOf(alns, minEcnt, terms);
    var k :| 0 <= k < |kept| && MapSeq(kept, QnameOf)[k] == names[i];
    PairedMember(alns, minEcnt, kept[k]);
    SumWhereFilterKeys(ev, QnameOf, Twice(MapSeq(ev, QnameOf)), AlignmentScore(terms), names[i]);
  }

  /** Every read name that occurs twice among the good evidence has a pair. */
  lemma EvidencePairsComplete(alns: seq<Alignment>, minEcnt: int, terms: LogTerms, a: Alignment)
    requires ScoreEvidence(alns, minEcnt, terms).Ok? && ScoreEvidence(alns, minEcnt, terms).value.Some?
    requires a in Filter(alns, GoodEvidence(minEcnt))
    requires Count(MapSeq(Filter(alns, GoodEvidence(minEcnt)), QnameOf), a.qname) == 2
    ensures exists p :: p in ScoreEvidence(alns, minEcnt, terms).value.value && p.qname == a.qname
  {
    var pairs := ScoreEvidence(alns, minEcnt, terms).value.value;
    var kept := PairedEvidence(alns, minEcnt);
    var names := Distinct(MapSeq(kept, QnameOf));
    EvidencePairsOf(alns, minEcnt, terms);
    PairedMember(alns, minEcnt, a);
    var k :| 0 <= k < |kept| && kept[k] == a;
    assert MapSeq(kept, QnameOf)[k] == a.qname;
    var i :| 0 <= i < |names| && names[i] == a.qname;
    assert pairs[i] in pairs;
  }

  /** Scoring the evidence raises exactly when a surviving alignment has a
    * malformed MD token. */
  lemma EvidenceErr(alns: seq<Alignment>, minEcnt: int, terms: LogTerms)
    ensures var kept := PairedEvidence(alns, minEcnt);
            ScoreEvidence(alns, minEcnt, terms).Err?
            <==> exists k :: 0 <= k < |kept| && LogLikelihood(kept[k].bqs, kept[k].mds, terms).Err?
  {
  }

  /** An allele's outcome: the name's error first; otherwise the evidence's
    * outcome, with every row tagged by the allele and by its gene, the prefix
    * and locus of the decomposed name. */
  lemma ScorePerAlleleTags(allele: string, alns: seq<Alignment>, minEcnt: int, terms: LogTerms)
    ensures var r := ScorePerAllele(allele, alns, minEcnt, terms);
            var d := Decompose(allele, DefaultGrammar);
            var e := ScoreEvidence(alns, minEcnt, terms);
            && (d.Err? ==> r == Err(d.error))
            && (d.Ok? ==> (r.Ok? <==> e.Ok?) && (r.Ok? ==> (r.value.None? <==> e.value.None?)))
            && (d.Ok? && r.Ok? && r.value.Some? ==>
                  |r.value.value| == |e.value.value|
                  && forall i :: 0 <= i < |r.value.value| ==>
                       r.value.value[i] == ScoreRow(e.value.value[i].qname, e.value.value[i].score, allele, GeneOf(d.value)))
  {
  }

  // ---------------------------------------------------------------------------
  // Stages: per-unit tables collected from a pool of workers

  /** What a worker returns for one unit: a table, no table, or an exception. */
  type Outcome = Result<Option<seq<ScoreRow>>>

  /** The tables of the outcomes in the order they arrive, up to the first exception. */
  function CollectTables(units: seq<Outcome>): Result<seq<seq<ScoreRow>>>
  {
    if units == [] then Ok([])
    else match CollectTables(units[..|units| - 1])
      case Err(e) => Err(e)
      case Ok(ts) =>
        match units[|units| - 1]
        case Err(e) => Err(e)
        case Ok(None) => Ok(ts)
        case Ok(Some(t)) => Ok(ts + [t])
  }

  /** Collecting one more outcome. */
  lemma CollectTablesNext(units: seq<Outcome>, i: nat, ts: seq<seq<ScoreRow>>)
    requires i < |units| && CollectTables(units[..i]) == Ok(ts)
    ensures units[i].Err? ==> CollectTables(units[..i + 1]) == Err(units[i].error)
    ensures units[i] == Ok(None) ==> CollectTables(units[..i + 1]) == Ok(ts)
    ensures units[i].Ok? && units[i].value.Some? ==> CollectTables(units[..i + 1]) == Ok(ts + [units[i].value.value])
  {
    var p := units[..i + 1];
    assert p[..|p| - 1] == units[..i];
    assert p[|p| - 1] == units[i];
  }

  /** A stage run on a pool of `nproc` workers: a pool of fewer than one worker
    * is refused, an exception ends the stage, no table at all raises `empty`,
    * and otherwise the tables are concatenated. */
  function Stage(units: seq<Outcome>, nproc: int, empty: Error): Result<seq<ScoreRow>>
  {
    if nproc < 1 then Err(PoolSizeError)
    else match CollectTables(units)
      case Err(e) => Err(e)
      case Ok(ts) => if ts == [] then Err(empty) else Ok(Flatten(ts))
  }

  /** Once an outcome has raised, later outcomes do not matter. */
  lemma {:induction false} CollectErrExtends(units: seq<Outcome>, k: nat)
    requires k <= |units| && CollectTables(units[..k]).Err?
    ensures CollectTables(units) == CollectTables(units[..k])
    decreases |units|
  {
    if k < |units| {
      var init := units[..|units| - 1];
      assert init[..k] == units[..k];
      CollectErrExtends(init, k);
    } else {
      assert units[..k] == units;
    }
  }

  /** The outcome of scoring one candidate allele on its alignments. */
  function FirstUnit(alignmentsOf: string -> seq<Alignment>, minEcnt: int, terms: LogTerms): string -> Outcome
  {
    allele => ScorePerAllele(allele, alignmentsOf(allele), minEcnt, terms)
  }

  /** `score_a_one`: every candidate allele scored by `worker`, the tables
    * collected.  The worker of the pipeline is `FirstUnit`, `score_per_allele`
    * with the alignment source, `min_ecnt` and the log terms fixed. */
  method ScoreFirst(alleles: seq<string>, worker: string -> Outcome, nproc: int) returns (r: Result<seq<ScoreRow>>)
    ensures r == Stage(MapSeq(alleles, worker), nproc, NoScorableCandidates)
  {
    var units := MapSeq(alleles, worker);
    if nproc < 1 {
      return Err(PoolSizeError);
    }
    var tables: seq<seq<ScoreRow>> := [];
    var i := 0;
    while i < |alleles|
      invariant 0 <= i <= |alleles|
      invariant CollectTables(units[..i]) == Ok(tables)
    {
      CollectTablesNext(units, i, tables);
      var res := worker(alleles[i]);
      match res {
        case Err(e) =>
          CollectErrExtends(units, i + 1);
          return Err(e);
        case Ok(None) =>
        case Ok(Some(t)) =>
          tables := tables + [t];
      }
      i := i + 1;
    }
    assert units[..i] == units;
    if tables == [] {
      return Err(NoScorableCandidates);
    }
    return Ok(Flatten(tables));
  }

  /** Every outcome is a table or no table. */
  predicate AllOk(units: seq<Outcome>)
  {
    forall u :: u in units ==> u.Ok?
  }

  /** Some outcome is a table. */
  predicate AnyTable(units: seq<Outcome>)
  {
    exists u :: u in units && u.Ok? && u.value.Some?
  }

  function TableRows(u: Outcome): multiset<ScoreRow>
  {
    if u.Ok? && u.value.Some? then multiset(u.value.value) else multiset{}
  }

  /** All rows of all tables, as a multiset. */
  function AllRows(units: seq<Outcome>): multiset<ScoreRow>
  {
    if units == [] then multiset{} else AllRows(units[..|units| - 1]) + TableRows(units[|units| - 1])
  }

  lemma {:induction false} AllRowsAppend(a: seq<Outcome>, b: seq<Outcome>)
    ensures AllRows(a + b) == AllRows(a) + AllRows(b)
    decreases |b|
  {
    if b == [] {
      assert a + b == a;
    } else {
      assert (a + b)[..|a + b| - 1] == a + b[..|b| - 1];
      AllRowsAppend(a, b[..|b| - 1]);
    }
  }

  lemma {:induction false} CollectTablesOk(units: seq<Outcome>)
    ensures CollectTables(units).Ok? <==> AllOk(units)
  {
    if units != [] {
      var init := units[..|units| - 1];
      CollectTablesOk(init);
      assert units == init + [units[|units| - 1]];
    }
  }

  lemma {:induction false} CollectTablesRows(units: seq<Outcome>)
    requires CollectTables(units).Ok?
    ensures multiset(Flatten(CollectTables(units).value)) == AllRows(units)
    ensures CollectTables(units).value == [] <==> !AnyTable(units)
  {
    if units != [] {
      var init := units[..|units| - 1];
      var u := units[|units| - 1];
      assert units == init + [u];
      CollectTablesRows(init);
      var ts := CollectTables(init).value;
      if u.value.Some? {
        FlattenAppend(ts, [u.value.value]);
        assert Flatten([u.value.value]) == u.value.value + Flatten([]);
      }
    }
  }

  /** A stage succeeds exactly when the pool has a worker, no unit raised and
    * some unit produced a table; its rows are then exactly the rows of all
    * tables, and a stage in which no unit produced a table raises `empty`. */
  lemma StageSpec(units: seq<Outcome>, nproc: int, empty: Error)
    ensures Stage(units, nproc, empty).Ok? <==> nproc >= 1 && AllOk(units) && AnyTable(units)
    ensures Stage(units, nproc, empty).Ok? ==> multiset(Stage(units, nproc, empty).value) == AllRows(units)
    ensures nproc >= 1 && AllOk(units) && !AnyTable(units) ==> Stage(units, nproc, empty) == Err(empty)
  {
    CollectTablesOk(units);
    if CollectTables(units).Ok? {
      CollectTablesRows(units);
    }
  }

  lemma AllRowsSplit(us: seq<Outcome>, j: nat)
    requires j < |us|
    ensures AllRows(us) == AllRows(us[..j] + us[j + 1..]) + TableRows(us[j])
  {
    var a, x, b := us[..j], us[j], us[j + 1..];
    SplitAt(us, j);
    AllRowsAppend(a + [x], b);
    AllRowsAppend(a, [x]);
    AllRowsAppend(a, b);
    assert [x][..0] == [];
    assert AllRows([x]) == TableRows(x);
  }

  lemma {:induction false} AllRowsPermutation(us1: seq<Outcome>, us2: seq<Outcome>)
    requires multiset(us1) == multiset(us2)
    ensures AllRows(us1) == AllRows(us2)
    decreases |us1|
  {
    if us1 != [] {
      var x := us1[|us1| - 1];
      var init := us1[..|us1| - 1];
      assert us1 == init + [x];
      assert x in multiset(us2);
      var j :| 0 <= j < |us2| && us2[j] == x;
      RemoveAt(us2, j);
      AllRowsPermutation(init, us2[..j] + us2[j + 1..]);
      AllRowsSplit(us2, j);
    } else {
      assert |multiset(us2)| == 0;
    }
  }

  /** The pool hands back outcomes in completion order; any order gives the
    * same verdict and, on success, the same rows. */
  lemma StageOrderIrrelevant(us1: seq<Outcome>, us2: seq<Outcome>, nproc: int, empty: Error)
    requires multiset(us1) == multiset(us2)
    ensures Stage(us1, nproc, empty).Ok? <==> Stage(us2, nproc, empty).Ok?
    ensures Stage(us1, nproc, empty).Ok? ==>
              multiset(Stage(us1, nproc, empty).value) == multiset(Stage(us2, nproc, empty).value)
  {
    StageSpec(us1, nproc, empty);
    StageSpec(us2, nproc, empty);
    AllRowsPermutation(us1, us2);
    forall u | u in us1
      ensures u in us2
    {
      assert u in multiset(us1);
    }
    forall u | u in us2
      ensures u in us1
    {
      assert u in multiset(us2);
    }
    assert AllOk(us1) <==> AllOk(us2);
    assert AnyTable(us1) <==> AnyTable(us2);
  }

  // ---------------------------------------------------------------------------
  // Stage two: reallocating read pairs away from the first winner

  function RowGene(r: ScoreRow): string { r.gene }
  function RowScore(r: ScoreRow): real { r.score }

  function OfGene(gene: string): ScoreRow -> bool
  {
    (r: ScoreRow) => r.gene == gene
  }

  /** The join key of `score_second_by_gene`: same read name and same gene. */
  function SameRead(s: ScoreRow): ScoreRow -> bool
  {
    (w: ScoreRow) => w.qname == s.qname && w.gene == s.gene
  }

  /** The winner scores a row is joined with; a row with no partner is joined
    * once, with 0 (`fill_null(0.0)`). */
  function Partners(s: ScoreRow, winners: seq<ScoreRow>): seq<real>
  {
    var m := Filter(winners, SameRead(s));
    if m == [] then [0.0] else MapSeq(m, RowScore)
  }

  /** No reallocation divides by zero (where Python would produce NaN). */
  predicate Reallocatable(a1: seq<ScoreRow>, winners: seq<ScoreRow>)
  {
    forall s, v :: s in a1 && v in Partners(s, winners) ==> s.score + v != 0.0
  }

  /** A score `s` weighed against the winner's score `w` on the same read pair. */
  function Reallocate(s: real, w: real): real
    requires s + w != 0.0
  {
    s * (s / (s + w))
  }

  /** The left join of `rows` with the winner rows, each joined row reallocated. */
  function JoinReallocate(rows: seq<ScoreRow>, winners: seq<ScoreRow>): seq<ScoreRow>
    requires Reallocatable(rows, winners)
  {
    if rows == [] then []
    else
      var s := rows[0];
      var vs := Partners(s, winners);
      assert forall k :: 0 <= k < |vs| ==> vs[k] in vs;
      JoinedRows(s, vs) + JoinReallocate(rows[1..], winners)
  }

  /** The row `s` once per joined winner score. */
  function JoinedRows(s: ScoreRow, vs: seq<real>): seq<ScoreRow>
    requires forall k :: 0 <= k < |vs| ==> s.score + vs[k] != 0.0
  {
    seq(|vs|, k requires 0 <= k < |vs| => s.(score := Reallocate(s.score, vs[k])))
  }

  /** Restricting the winners to the row's gene leaves its partners unchanged. */
  lemma PartnersOfGene(s: ScoreRow, winners: seq<ScoreRow>)
    ensures Partners(s, Filter(winners, OfGene(s.gene))) == Partners(s, winners)
  {
    FilterFilterImplied(winners, OfGene(s.gene), SameRead(s));
  }

  lemma ReallocatableOfGene(gene: string, a1: seq<ScoreRow>, winners: seq<ScoreRow>)
    requires Reallocatable(a1, winners)
    ensures Reallocatable(Filter(a1, OfGene(gene)), Filter(winners, OfGene(gene)))
  {
    forall s | s in Filter(a1, OfGene(gene))
      ensures s in a1 && s.gene == gene
    {
      FilterMember(a1, OfGene(gene), s);
    }
    forall s | s in Filter(a1, OfGene(gene))
      ensures Partners(s, Filter(winners, OfGene(gene))) == Partners(s, winners)
    {
      PartnersOfGene(s, winners);
    }
  }

  /** `score_second_by_gene`: the gene's stage-one rows, each joined with the
    * gene's winner rows on read name and reallocated. */
  function ScoreSecondByGene(gene: string, a1: seq<ScoreRow>, winners: seq<ScoreRow>): seq<ScoreRow>
    requires Reallocatable(a1, winners)
  {
    ReallocatableOfGene(gene, a1, winners);
    JoinReallocate(Filter(a1, OfGene(gene)), Filter(winners, OfGene(gene)))
  }

  /** The per-gene tables of stage two. */
  function SecondUnits(genes: seq<string>, a1: seq<ScoreRow>, winners: seq<ScoreRow>): seq<Outcome>
    requires Reallocatable(a1, winners)
  {
    seq(|genes|, i requires 0 <= i < |genes| => Ok(Some(ScoreSecondByGene(genes[i], a1, winners))))
  }

  /** The genes of the winner rows, in order of first occurrence. */
  function WinnerGenes(winners: seq<ScoreRow>): seq<string>
  {
    Distinct(MapSeq(winners, RowGene))
  }

  /** Stage two: one unit per winner gene, on a pool of at most that many workers. */
  function SecondStage(a1: seq<ScoreRow>, winners: seq<ScoreRow>, nproc: int): Result<seq<ScoreRow>>
    requires Reallocatable(a1, winners)
  {
    var genes := WinnerGenes(winners);
    Stage(SecondUnits(genes, a1, winners), Min(nproc, |genes|), NoScorableGenes)
  }

  /** `score_a_two`: every winner gene reallocated, the tables collected. */
  method ScoreSecond(a1: seq<ScoreRow>, winners: seq<ScoreRow>, nproc: int) returns (r: Result<seq<ScoreRow>>)
    requires Reallocatable(a1, winners)
    ensures r == SecondStage(a1, winners, nproc)
  {
    var genes := WinnerGenes(winners);
    var units := SecondUnits(genes, a1, winners);
    var workers := Min(nproc, |genes|);
    if workers < 1 {
      return Err(PoolSizeError);
    }
    var tables: seq<seq<ScoreRow>> := [];
    var i := 0;
    while i < |genes|
      invariant 0 <= i <= |genes|
      invariant |tables| == i
      invariant CollectTables(units[..i]) == Ok(tables)
    {
      CollectTablesNext(units, i, tables);
      var res := ScoreSecondByGene(genes[i], a1, winners);
      assert units[i] == Ok(Some(res));
      tables := tables + [res];
      i := i + 1;
    }
    assert units[..i] == units;
    return Ok(Flatten(tables));
  }

  /** Stage two never ends for want of tables: every gene yields one. */
  lemma SecondStageNeverEmpty(a1: seq<ScoreRow>, winners: seq<ScoreRow>, nproc: int)
    requires Reallocatable(a1, winners)
    ensures SecondStage(a1, winners, nproc) != Err(NoScorableGenes)
    ensures SecondStage(a1, winners, nproc).Ok? <==> nproc >= 1 && winners != []
  {
    var genes := WinnerGenes(winners);
    var units := SecondUnits(genes, a1, winners);
    StageSpec(units, Min(nproc, |genes|), NoScorableGenes);
    assert AllOk(units);
    if genes != [] {
      assert units[0] in units;
    }
    if winners != [] {
      var ks := MapSeq(winners, RowGene);
      assert |ks| == |winners|;
      assert ks[0] in genes;
    }
  }

  /** Every joined row is a stage-one row with a new score. */
  lemma {:induction false} JoinReallocateRows(rows: seq<ScoreRow>, winners: seq<ScoreRow>, o: ScoreRow)
    requires Reallocatable(rows, winners)
    requires o in JoinReallocate(rows, winners)
    ensures exists s :: s in rows && o == s.(score := o.score)
  {
    var s := rows[0];
    assert s in rows;
    var vs := Partners(s, winners);
    assert forall k :: 0 <= k < |vs| ==> vs[k] in vs;
    var head := JoinedRows(s, vs);
    assert JoinReallocate(rows, winners) == head + JoinReallocate(rows[1..], winners);
    if o in head {
      assert o == s.(score := o.score);
    } else {
      JoinReallocateRows(rows[1..], winners, o);
      var t :| t in rows[1..] && o == t.(score := o.score);
      assert t in rows;
    }
  }

  /** Reallocation keeps only the gene's rows and changes nothing but scores. */
  lemma ReallocationOfGene(gene: string, a1: seq<ScoreRow>, winners: seq<ScoreRow>, o: ScoreRow)
    requires Reallocatable(a1, winners)
    requires o in ScoreSecondByGene(gene, a1, winners)
    ensures o.gene == gene
    ensures exists s :: s in a1 && o == s.(score := o.score)
  {
    ReallocatableOfGene(gene, a1, winners);
    JoinReallocateRows(Filter(a1, OfGene(gene)), Filter(winners, OfGene(gene)), o);
    var s :| s in Filter(a1, OfGene(gene)) && o == s.(score := o.score);
    FilterMember(a1, OfGene(gene), s);
  }

  /** When each row has at most one partner, the join is one row per row. */
  lemma {:induction false} JoinOneToOne(rows: seq<ScoreRow>, winners: seq<ScoreRow>)
    requires Reallocatable(rows, winners)
    requires forall s :: s in rows ==> |Partners(s, winners)| == 1
    ensures |JoinReallocate(rows, winners)| == |rows|
    ensures forall i :: 0 <= i < |rows| ==>
              Partners(rows[i], winners)[0] in Partners(rows[i], winners)
              && JoinReallocate(rows, winners)[i]
                 == rows[i].(score := Reallocate(rows[i].score, Partners(rows[i], winners)[0]))
  {
    if rows != [] {
      var s := rows[0];
      var vs := Partners(s, winners);
      assert s in rows;
      assert vs[0] in vs;
      assert forall k :: 0 <= k < |vs| ==> vs[k] in vs;
      var head := JoinedRows(s, vs);
      assert JoinReallocate(rows, winners) == head + JoinReallocate(rows[1..], winners);
      assert forall t :: t in rows[1..] ==> t in rows;
      JoinOneToOne(rows[1..], winners);
      forall i | 1 <= i < |rows|
        ensures JoinReallocate(rows, winners)[i]
                == rows[i].(score := Reallocate(rows[i].score, Partners(rows[i], winners)[0]))
      {
        assert rows[i] == rows[1..][i - 1];
      }
    }
  }

  /** `o` is the row `s` reallocated against the winner rows: same read, allele
    * and gene; unchanged without winner evidence; `s * s/(s+w)` against a winner
    * score `w`; halved when `s` is itself a winner row. */
  predicate ReallocatedFrom(o: ScoreRow, s: ScoreRow, winners: seq<ScoreRow>)
  {
    && o.qname == s.qname && o.allele == s.allele && o.gene == s.gene
    && ((forall w :: w in winners ==> !(w.qname == s.qname && w.gene == s.gene)) ==> o == s)
    && (forall w :: w in winners && w.qname == s.qname && w.gene == s.gene
          ==> s.score + w.score != 0.0 && o.score == Reallocate(s.score, w.score))
    && (s in winners ==> o.score == s.score / 2.0)
  }

  /** One stage-one row against its (at most one) winner partner. */
  lemma ReallocatedRow(s: ScoreRow, winners: seq<ScoreRow>, o: ScoreRow)
    requires |Filter(winners, SameRead(s))| <= 1
    requires forall v :: v in Partners(s, winners) ==> s.score + v != 0.0
    requires Partners(s, winners)[0] in Partners(s, winners)
    requires o == s.(score := Reallocate(s.score, Partners(s, winners)[0]))
    ensures ReallocatedFrom(o, s, winners)
  {
    var m := Filter(winners, SameRead(s));
    forall w | w in winners && w.qname == s.qname && w.gene == s.gene
      ensures w in m
    {
      FilterMember(winners, SameRead(s), w);
    }
    if m == [] {
      assert Partners(s, winners) == [0.0];
      assert s.score + 0.0 != 0.0;
      ReallocateUnchanged(s.score);
      assert o.score == s.score;
    } else {
      var ps := Partners(s, winners);
      assert ps == MapSeq(m, RowScore);
      assert ps[0] == RowScore(m[0]) == m[0].score;
      OnePartnerRow(s, winners, m, o);
    }
  }

  lemma OnePartnerRow(s: ScoreRow, winners: seq<ScoreRow>, m: seq<ScoreRow>, o: ScoreRow)
    requires m == Filter(winners, SameRead(s)) && |m| == 1
    requires forall w :: w in winners && w.qname == s.qname && w.gene == s.gene ==> w in m
    requires s.score + m[0].score != 0.0
    requires o == s.(score := Reallocate(s.score, m[0].score))
    ensures ReallocatedFrom(o, s, winners)
  {
    forall w | w in winners && w.qname == s.qname && w.gene == s.gene
      ensures w == m[0]
    {
    }
    if s in winners {
      ReallocateHalves(s.score);
    }
  }

  /** With at most one winner row per read name and gene (as with the winner
    * rows of stage one), reallocation gives one row per stage-one row of the
    * gene, in order, each reallocated against its winner partner. */
  lemma ReallocationOneToOne(gene: string, a1: seq<ScoreRow>, winners: seq<ScoreRow>)
    requires Reallocatable(a1, winners)
    requires forall i, j :: 0 <= i < j < |winners| ==>
               winners[i].qname != winners[j].qname || winners[i].gene != winners[j].gene
    ensures var rows := Filter(a1, OfGene(gene));
            var out := ScoreSecondByGene(gene, a1, winners);
            && |out| == |rows|
            && forall i :: 0 <= i < |rows| ==> rows[i].gene == gene && ReallocatedFrom(out[i], rows[i], winners)
  {
    var rows := Filter(a1, OfGene(gene));
    var ws := Filter(winners, OfGene(gene));
    ReallocatableOfGene(gene, a1, winners);
    forall s | s in rows
      ensures s in a1 && s.gene == gene
      ensures Partners(s, ws) == Partners(s, winners)
      ensures |Filter(winners, SameRead(s))| <= 1
      ensures |Partners(s, ws)| == 1
    {
      FilterMember(a1, OfGene(gene), s);
      PartnersOfGene(s, winners);
      FilterAtMostOne(winners, SameRead(s));
    }
    JoinOneToOne(rows, ws);
    var out := ScoreSecondByGene(gene, a1, winners);
    forall i | 0 <= i < |rows|
      ensures ReallocatedFrom(out[i], rows[i], winners)
    {
      assert rows[i] in rows;
      ReallocatedRow(rows[i], winners, out[i]);
    }
  }

  /** A row belongs to a stage exactly when it belongs to one of its tables. */
  lemma AllRowsMember(us: seq<Outcome>, x: ScoreRow)
    ensures x in AllRows(us) <==> exists j :: 0 <= j < |us| && x in TableRows(us[j])
  {
    if x in AllRows(us) {
      var j := AllRowsSource(us, x);
    } else {
      forall j | 0 <= j < |us|
        ensures x !in TableRows(us[j])
      {
        if x in TableRows(us[j]) {
          AllRowsHas(us, x, j);
        }
      }
    }
  }

  lemma {:induction false} AllRowsHas(us: seq<Outcome>, x: ScoreRow, j: nat)
    requires j < |us| && x in TableRows(us[j])
    ensures x in AllRows(us)
  {
    var init := us[..|us| - 1];
    assert AllRows(us) == AllRows(init) + TableRows(us[|us| - 1]);
    if j < |us| - 1 {
      assert init[j] == us[j];
      AllRowsHas(init, x, j);
    }
  }

  lemma {:induction false} AllRowsSource(us: seq<Outcome>, x: ScoreRow) returns (j: nat)
    requires x in AllRows(us)
    ensures j < |us| && x in TableRows(us[j])
  {
    var init := us[..|us| - 1];
    assert AllRows(us) == AllRows(init) + TableRows(us[|us| - 1]);
    if x in TableRows(us[|us| - 1]) {
      j := |us| - 1;
    } else {
      j := AllRowsSource(init, x);
      assert init[j] == us[j];
    }
  }

  /** Every row of the gene gives at least one joined row. */
  lemma {:induction false} JoinReallocateCovers(rows: seq<ScoreRow>, winners: seq<ScoreRow>, s: ScoreRow)
    requires Reallocatable(rows, winners)
    requires s in rows
    ensures exists o :: o in JoinReallocate(rows, winners) && o == s.(score := o.score)
  {
    var t := rows[0];
    assert t in rows;
    var vs := Partners(t, winners);
    assert forall k :: 0 <= k < |vs| ==> vs[k] in vs;
    var head := JoinedRows(t, vs);
    assert JoinReallocate(rows, winners) == head + JoinReallocate(rows[1..], winners);
    if s == t {
      assert head[0] in JoinReallocate(rows, winners);
    } else {
      assert forall u :: u in rows[1..] ==> u in rows;
      JoinReallocateCovers(rows[1..], winners, s);
      var o :| o in JoinReallocate(rows[1..], winners) && o == s.(score := o.score);
      assert o in JoinReallocate(rows, winners);
    }
  }

  /** The rows of stage two are stage-one rows of winner genes with new scores. */
  lemma SecondStageRowsFrom(a1: seq<ScoreRow>, winners: seq<ScoreRow>, nproc: int, o: ScoreRow)
    requires Reallocatable(a1, winners)
    requires SecondStage(a1, winners, nproc).Ok? && o in SecondStage(a1, winners, nproc).value
    ensures o.gene in MapSeq(winners, RowGene)
    ensures exists s :: s in a1 && o == s.(score := o.score)
  {
    var genes := WinnerGenes(winners);
    var units := SecondUnits(genes, a1, winners);
    StageSpec(units, Min(nproc, |genes|), NoScorableGenes);
    assert o in multiset(SecondStage(a1, winners, nproc).value);
    var j := AllRowsSource(units, o);
    assert o in ScoreSecondByGene(genes[j], a1, winners);
    ReallocationOfGene(genes[j], a1, winners, o);
  }

  /** Every stage-one row of a winner gene has a counterpart in stage two. */
  lemma SecondStageCovers(a1: seq<ScoreRow>, winners: seq<ScoreRow>, nproc: int, s: ScoreRow)
    requires Reallocatable(a1, winners)
    requires SecondStage(a1, winners, nproc).Ok?
    requires s in a1 && s.gene in MapSeq(winners, RowGene)
    ensures exists o :: o in SecondStage(a1, winners, nproc).value && o == s.(score := o.score)
  {
    var genes := WinnerGenes(winners);
    var units := SecondUnits(genes, a1, winners);
    var j :| 0 <= j < |genes| && genes[j] == s.gene;
    var o := GeneCounterpart(a1, winners, s);
    assert units[j] == Ok(Some(ScoreSecondByGene(s.gene, a1, winners)));
    AllRowsHas(units, o, j);
    StageSpec(units, Min(nproc, |genes|), NoScorableGenes);
    assert o in multiset(SecondStage(a1, winners, nproc).value);
  }

  /** A stage-one row has a counterpart in the reallocated table of its gene. */
  lemma GeneCounterpart(a1: seq<ScoreRow>, winners: seq<ScoreRow>, s: ScoreRow) returns (o: ScoreRow)
    requires Reallocatable(a1, winners)
    requires s in a1
    ensures o in ScoreSecondByGene(s.gene, a1, winners) && o == s.(score := o.score)
  {
    FilterMember(a1, OfGene(s.gene), s);
    ReallocatableOfGene(s.gene, a1, winners);
    JoinReallocateCovers(Filter(a1, OfGene(s.gene)), Filter(winners, OfGene(s.gene)), s);
    o :| o in ScoreSecondByGene(s.gene, a1, winners) && o == s.(score := o.score);
  }

  lemma ReallocateUnchanged(s: real)
    requires s != 0.0
    ensures Reallocate(s, 0.0) == s
  {
  }

  lemma ReallocateHalves(s: real)
    requires s + s != 0.0
    ensures Reallocate(s, s) == s / 2.0
  {
  }

  // ---------------------------------------------------------------------------
  // Winners

  /** An allele of a gene with its rounded total score (`tot_scores`). */
  datatype Winner = Winner(allele: string, gene: string, total: real)

  function AlleleGene(r: ScoreRow): (string, string) { (r.allele, r.gene) }
  function WinnerGene(w: Winner): string { w.gene }

  function OfWinnerGene(gene: string): Winner -> bool
  {
    (w: Winner) => w.gene == gene
  }

  /** `group_by(["allele", "gene"]).agg(sum().round(4))`: one rounded total per
    * allele and gene, in order of first occurrence. */
  function Totals(rows: seq<ScoreRow>, round: real -> real): seq<Winner>
  {
    var keys := Distinct(MapSeq(rows, AlleleGene));
    seq(|keys|, i requires 0 <= i < |keys| =>
      Winner(keys[i].0, keys[i].1, round(SumWhere(rows, AlleleGene, RowScore, keys[i]))))
  }

  /** No allele and gene has two totals. */
  lemma TotalsDistinct(rows: seq<ScoreRow>, round: real -> real)
    ensures var ts := Totals(rows, round);
            forall i, j :: 0 <= i < j < |ts| ==> ts[i].allele != ts[j].allele || ts[i].gene != ts[j].gene
  {
    var ts := Totals(rows, round);
    var keys := Distinct(MapSeq(rows, AlleleGene));
    forall i, j | 0 <= i < j < |ts|
      ensures ts[i].allele != ts[j].allele || ts[i].gene != ts[j].gene
    {
      assert keys[i] != keys[j];
    }
  }

  /** Every total belongs to an allele and gene of the rows and is the rounded
    * sum of that allele's scores in that gene. */
  lemma TotalsOfRows(rows: seq<ScoreRow>, round: real -> real)
    ensures forall t :: t in Totals(rows, round) ==>
              (exists r :: r in rows && r.allele == t.allele && r.gene == t.gene)
              && t.total == round(SumWhere(rows, AlleleGene, RowScore, (t.allele, t.gene)))
  {
    var ts := Totals(rows, round);
    var ks := MapSeq(rows, AlleleGene);
    var keys := Distinct(ks);
    forall t | t in ts
      ensures exists r :: r in rows && r.allele == t.allele && r.gene == t.gene
      ensures t.total == round(SumWhere(rows, AlleleGene, RowScore, (t.allele, t.gene)))
    {
      var i :| 0 <= i < |ts| && ts[i] == t;
      assert keys[i] == (t.allele, t.gene);
      assert keys[i] in ks;
      var k :| 0 <= k < |ks| && ks[k] == keys[i];
      assert rows[k] in rows && AlleleGene(rows[k]) == keys[i];
    }
  }

  /** Every allele and gene of the rows has a total. */
  lemma TotalsCover(rows: seq<ScoreRow>, round: real -> real)
    ensures forall r :: r in rows ==> exists t :: t in Totals(rows, round) && t.allele == r.allele && t.gene == r.gene
  {
    var ts := Totals(rows, round);
    var ks := MapSeq(rows, AlleleGene);
    var keys := Distinct(ks);
    forall r | r in rows
      ensures exists t :: t in ts && t.allele == r.allele && t.gene == r.gene
    {
      var k :| 0 <= k < |rows| && rows[k] == r;
      assert ks[k] == AlleleGene(r);
      var i :| 0 <= i < |keys| && keys[i] == ks[k];
      assert ts[i] in ts;
    }
  }

  lemma BestOfHead(ts: seq<Winner>, rest: Winner)
    requires |ts| > 1
    requires rest in ts[1..]
    requires forall t :: t in ts[1..] ==> t.total <= rest.total
    requires forall t :: t in ts[1..] && t.total == rest.total ==> StrLessEq(rest.allele, t.allele)
    requires ts[0].total > rest.total || (ts[0].total == rest.total && StrLessEq(ts[0].allele, rest.allele))
    ensures forall t :: t in ts && t.total == ts[0].total ==> StrLessEq(ts[0].allele, t.allele)
  {
    forall t | t in ts && t.total == ts[0].total
      ensures StrLessEq(ts[0].allele, t.allele)
    {
      if t == ts[0] {
        StrLessEqTotal(t.allele, t.allele);
      } else {
        assert t in ts[1..];
        StrLessEqTransitive(ts[0].allele, rest.allele, t.allele);
      }
    }
  }

  /** The winner among totals: the largest total, ties going to the
    * lexicographically smallest allele. */
  function BestOf(ts: seq<Winner>): (b: Winner)
    requires ts != []
    ensures b in ts
    ensures forall t :: t in ts ==> t.total <= b.total
    ensures forall t :: t in ts && t.total == b.total ==> StrLessEq(b.allele, t.allele)
  {
    if |ts| == 1 then
      StrLessEqTotal(ts[0].allele, ts[0].allele);
      ts[0]
    else
      var rest := BestOf(ts[1..]);
      if ts[0].total > rest.total || (ts[0].total == rest.total && StrLessEq(ts[0].allele, rest.allele)) then
        BestOfHead(ts, rest);
        ts[0]
      else
        StrLessEqTotal(ts[0].allele, rest.allele);
        rest
  }

  lemma GeneHasTotal(ts: seq<Winner>, gene: string)
    requires gene in MapSeq(ts, WinnerGene)
    ensures Filter(ts, OfWinnerGene(gene)) != []
  {
    var k :| 0 <= k < |ts| && MapSeq(ts, WinnerGene)[k] == gene;
    assert ts[k] in ts && OfWinnerGene(gene)(ts[k]);
    FilterMember(ts, OfWinnerGene(gene), ts[k]);
  }

  /** The winner of one gene. */
  function GeneWinner(ts: seq<Winner>, gene: string): (b: Winner)
    requires gene in MapSeq(ts, WinnerGene)
    ensures b.gene == gene && b in ts
  {
    GeneHasTotal(ts, gene);
    var b := BestOf(Filter(ts, OfWinnerGene(gene)));
    FilterMember(ts, OfWinnerGene(gene), b);
    b
  }

  /** `get_winners`: per gene, the allele with the largest rounded total, ties
    * going to the lexicographically smallest allele. */
  function GetWinners(rows: seq<ScoreRow>, round: real -> real): seq<Winner>
  {
    var ts := Totals(rows, round);
    var genes := Distinct(MapSeq(ts, WinnerGene));
    seq(|genes|, i requires 0 <= i < |genes| => GeneWinner(ts, genes[i]))
  }

  /** The `i`-th winner is the best total of the `i`-th gene. */
  lemma WinnerAt(rows: seq<ScoreRow>, round: real -> real, i: nat)
    requires i < |GetWinners(rows, round)|
    ensures var w := GetWinners(rows, round);
            var ts := Totals(rows, round);
            && w[i].gene == Distinct(MapSeq(ts, WinnerGene))[i]
            && w[i] in ts
            && forall t :: t in ts && t.gene == w[i].gene ==>
                 t.total <= w[i].total && (t.total == w[i].total ==> StrLessEq(w[i].allele, t.allele))
  {
    var w := GetWinners(rows, round);
    var ts := Totals(rows, round);
    var genes := Distinct(MapSeq(ts, WinnerGene));
    var f := Filter(ts, OfWinnerGene(genes[i]));
    assert w[i] == GeneWinner(ts, genes[i]) == BestOf(f);
    FilterMember(ts, OfWinnerGene(genes[i]), w[i]);
    forall t | t in ts && t.gene == genes[i]
      ensures t in f
    {
      FilterMember(ts, OfWinnerGene(genes[i]), t);
    }
  }

  /** No gene has two winners, and every winner is one of the totals. */
  lemma WinnersOnePerGene(rows: seq<ScoreRow>, round: real -> real)
    ensures var w := GetWinners(rows, round);
            && (forall i, j :: 0 <= i < j < |w| ==> w[i].gene != w[j].gene)
            && (forall x :: x in w ==> x in Totals(rows, round))
  {
    var w := GetWinners(rows, round);
    forall i | 0 <= i < |w|
      ensures w[i].gene == Distinct(MapSeq(Totals(rows, round), WinnerGene))[i]
      ensures w[i] in Totals(rows, round)
    {
      WinnerAt(rows, round, i);
    }
  }

  /** Every gene of the rows has a winner. */
  lemma WinnersCover(rows: seq<ScoreRow>, round: real -> real)
    ensures forall r :: r in rows ==> exists x :: x in GetWinners(rows, round) && x.gene == r.gene
  {
    forall r | r in rows
      ensures exists x :: x in GetWinners(rows, round) && x.gene == r.gene
    {
      GeneOfRowHasWinner(rows, round, r);
    }
  }

  lemma GeneOfRowHasWinner(rows: seq<ScoreRow>, round: real -> real, r: ScoreRow)
    requires r in rows
    ensures exists x :: x in GetWinners(rows, round) && x.gene == r.gene
  {
    var ts := Totals(rows, round);
    var gs := MapSeq(ts, WinnerGene);
    var genes := Distinct(gs);
    TotalsCover(rows, round);
    var t :| t in ts && t.allele == r.allele && t.gene == r.gene;
    MapSeqMember(ts, WinnerGene, t);
    var k :| 0 <= k < |gs| && gs[k] == r.gene;
    assert r.gene in genes;
    var i :| 0 <= i < |genes| && genes[i] == r.gene;
    var w := GetWinners(rows, round);
    assert w[i] == GeneWinner(ts, genes[i]);
    assert w[i] in w;
  }

  /** Exactly one winner per gene of the rows; it is one of the gene's totals,
    * no total of the gene exceeds it, and a tied total has an allele no smaller. */
  lemma WinnersSpec(rows: seq<ScoreRow>, round: real -> real)
    ensures var w := GetWinners(rows, round);
            var ts := Totals(rows, round);
            && (forall i, j :: 0 <= i < j < |w| ==> w[i].gene != w[j].gene)
            && (forall r :: r in rows ==> exists x :: x in w && x.gene == r.gene)
            && (forall x :: x in w ==> x in ts)
            && (forall x, t :: x in w && t in ts && t.gene == x.gene ==>
                  t.total <= x.total && (t.total == x.total ==> StrLessEq(x.allele, t.allele)))
  {
    var w := GetWinners(rows, round);
    WinnersOnePerGene(rows, round);
    WinnersCover(rows, round);
    forall i | 0 <= i < |w|
      ensures forall t :: t in Totals(rows, round) && t.gene == w[i].gene ==>
                t.total <= w[i].total && (t.total == w[i].total ==> StrLessEq(w[i].allele, t.allele))
    {
      WinnerAt(rows, round, i);
    }
  }
}
