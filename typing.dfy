/** The typing run: the sample name and the candidate alleles read from the
  * alignment header, and the two-stage composition that types two copies of
  * every gene. */
module Typing {
  import opened Outcomes
  import opened Seqs
  import opened Text
  import opened HlaAllele
  import opened Scoring

  // ---------------------------------------------------------------------------
  // Sample name

  /** `load_rg_sm_from_bam`: the SM value of the one read group.  More than
    * one read group, or a missing or empty SM, is refused; with no read group
    * at all the lookup of the first one escapes unconverted. */
  function LoadRgSm(rgs: seq<map<string, string>>): (r: Result<string>)
    ensures r.Ok? <==> |rgs| == 1 && "SM" in rgs[0] && rgs[0]["SM"] != ""
    ensures r.Ok? ==> r.value == rgs[0]["SM"]
    ensures r == Err(NoReadGroup) <==> rgs == []
    ensures r.Err? && rgs != [] ==> r == Err(ReadGroupError)
  {
    if |rgs| > 1 then Err(ReadGroupError)
    else if rgs == [] then Err(NoReadGroup)
    else if "SM" !in rgs[0] || rgs[0]["SM"] == "" then Err(ReadGroupError)
    else Ok(rgs[0]["SM"])
  }

  // ---------------------------------------------------------------------------
  // Alleles to type

  /** The names among `names` whose reduction is listed in `kept`, the names
    * themselves and in order; the first name that cannot be reduced ends the
    * selection with its error. */
  function KeepReduced(names: seq<string>, kept: seq<string>, reduce: string -> Result<Reduction>): Result<seq<string>>
  {
    if names == [] then Ok([])
    else match reduce(names[0])
      case Err(e) => Err(e)
      case Ok(red) =>
        match KeepReduced(names[1..], kept, reduce)
        case Err(e) => Err(e)
        case Ok(rest) => Ok(if red.allele in kept then [names[0]] + rest else rest)
  }

  /** The test "`n` reduces to a name listed in `kept`". */
  function KeptBy(kept: seq<string>, reduce: string -> Result<Reduction>): string -> bool
  {
    (n: string) => reduce(n).Ok? && reduce(n).value.allele in kept
  }

  /** The selection succeeds exactly when every name reduces, and is then the
    * names whose reduction is kept. */
  lemma {:induction false} KeepReducedSpec(names: seq<string>, kept: seq<string>, reduce: string -> Result<Reduction>)
    ensures KeepReduced(names, kept, reduce).Ok? <==> forall n :: n in names ==> reduce(n).Ok?
    ensures KeepReduced(names, kept, reduce).Ok? ==>
              KeepReduced(names, kept, reduce).value == Filter(names, KeptBy(kept, reduce))
    ensures KeepReduced(names, kept, reduce).Err? ==>
              exists n :: n in names && reduce(n) == Err(KeepReduced(names, kept, reduce).error)
  {
    if names != [] {
      assert names == [names[0]] + names[1..];
      KeepReducedSpec(names[1..], kept, reduce);
      if KeepReduced(names[1..], kept, reduce).Err? {
        var n :| n in names[1..] && reduce(n) == Err(KeepReduced(names[1..], kept, reduce).error);
        assert n in names;
      }
    }
  }

  /** `reduce_resolution` with a two-field grammar. */
  function TwoFieldReduction(): string -> Result<Reduction>
  {
    (n: string) => ReduceResolution(n, TwoFieldGrammar)
  }

  /** `collect_alleles_to_type`: the header's reference names, or with a list
    * of kept names those whose two-field reduction is listed; nothing left to
    * type is refused. */
  function CollectAllelesToType(names: seq<string>, kept: Option<seq<string>>): Result<seq<string>>
  {
    var selected := if kept.None? then Ok(names) else KeepReduced(names, kept.value, TwoFieldReduction());
    match selected
    case Err(e) => Err(e)
    case Ok(alleles) => if alleles == [] then Err(NoAllelesToType) else Ok(alleles)
  }

  /** Without a kept list every name is typed in order.  With one, the
    * collection fails when a name does not reduce, and otherwise holds the
    * original names, in order, whose two-field reduction is listed; an empty
    * collection is refused. */
  lemma CollectAllelesToTypeSpec(names: seq<string>, kept: Option<seq<string>>)
    ensures kept.None? ==>
              CollectAllelesToType(names, kept) == if names == [] then Err(NoAllelesToType) else Ok(names)
    ensures kept.Some? && (exists n :: n in names && ReduceResolution(n, TwoFieldGrammar).Err?) ==>
              CollectAllelesToType(names, kept) == Err(DecomposeError)
    ensures kept.Some? && (forall n :: n in names ==> ReduceResolution(n, TwoFieldGrammar).Ok?) ==>
              var want := set n | n in names && ReduceResolution(n, TwoFieldGrammar).value.allele in kept.value;
              && (CollectAllelesToType(names, kept).Ok? <==> want != {})
              && (CollectAllelesToType(names, kept).Err? ==> CollectAllelesToType(names, kept) == Err(NoAllelesToType))
              && (CollectAllelesToType(names, kept).Ok? ==>
                    && IsSubsequence(CollectAllelesToType(names, kept).value, names)
                    && forall n :: n in CollectAllelesToType(names, kept).value <==> n in want)
  {
    if kept.Some? {
      var reduce := TwoFieldReduction();
      var k := kept.value;
      KeepReducedSpec(names, k, reduce);
      var sel := KeepReduced(names, k, reduce);
      if sel.Err? {
        var n :| n in names && reduce(n) == Err(sel.error);
        assert ReduceResolution(n, TwoFieldGrammar).Err?;
        assert sel.error == DecomposeError;
      } else {
        FilterIsSubsequence(names, KeptBy(k, reduce));
        var want := set n | n in names && ReduceResolution(n, TwoFieldGrammar).value.allele in k;
        forall n
          ensures n in sel.value <==> n in want
        {
          FilterMember(names, KeptBy(k, reduce), n);
        }
        if sel.value != [] {
          assert sel.value[0] in want;
        }
      }
    }
  }

  // ---------------------------------------------------------------------------
  // Two-stage typing

  /** A row of the final table: a winner tagged with the sample. */
  datatype Typed = Typed(allele: string, gene: string, total: real, sample: string)

  function TypedGene(t: Typed): string { t.gene }

  /** The test "the row's allele and gene are those of a winner". */
  function IsWinnerRow(w: seq<Winner>): ScoreRow -> bool
  {
    (r: ScoreRow) => exists x :: x in w && x.allele == r.allele && x.gene == r.gene
  }

  /** The inner join of the stage-one rows with the stage-one winners on gene
    * and allele: the rows of the winning alleles. */
  function WinnerScores(a1: seq<ScoreRow>, w1: seq<Winner>): seq<ScoreRow>
  {
    Filter(a1, IsWinnerRow(w1))
  }

  function SampleTag(sample: string): Winner -> Typed
  {
    (w: Winner) => Typed(w.allele, w.gene, w.total, sample)
  }

  /** `t` placed before the first row whose allele it does not follow. */
  function InsertByAllele(t: Typed, xs: seq<Typed>): seq<Typed>
  {
    if xs == [] then [t]
    else if StrLessEq(t.allele, xs[0].allele) then [t] + xs
    else [xs[0]] + InsertByAllele(t, xs[1..])
  }

  /** The rows ordered by allele name. */
  function SortByAllele(xs: seq<Typed>): seq<Typed>
  {
    if xs == [] then [] else InsertByAllele(xs[0], SortByAllele(xs[1..]))
  }

  predicate SortedByAllele(xs: seq<Typed>)
  {
    forall i, j :: 0 <= i < j < |xs| ==> StrLessEq(xs[i].allele, xs[j].allele)
  }

  lemma {:induction false} InsertByAlleleSpec(t: Typed, xs: seq<Typed>)
    requires SortedByAllele(xs)
    ensures SortedByAllele(InsertByAllele(t, xs))
    ensures multiset(InsertByAllele(t, xs)) == multiset(xs) + multiset{t}
  {
    if xs != [] {
      assert xs == [xs[0]] + xs[1..];
      if StrLessEq(t.allele, xs[0].allele) {
        var r := [t] + xs;
        forall i, j | 0 <= i < j < |r|
          ensures StrLessEq(r[i].allele, r[j].allele)
        {
          if i == 0 && j > 1 {
            StrLessEqTransitive(t.allele, xs[0].allele, xs[j - 1].allele);
          }
        }
      } else {
        StrLessEqTotal(t.allele, xs[0].allele);
        InsertByAlleleSpec(t, xs[1..]);
        var tail := InsertByAllele(t, xs[1..]);
        var r := [xs[0]] + tail;
        forall i, j | 0 <= i < j < |r|
          ensures StrLessEq(r[i].allele, r[j].allele)
        {
          if i == 0 {
            assert r[j] in multiset(tail);
            assert r[j] == t || r[j] in xs[1..];
          }
        }
      }
    }
  }

  /** Sorting orders the rows by allele and keeps every row. */
  lemma {:induction false} SortByAlleleSpec(xs: seq<Typed>)
    ensures SortedByAllele(SortByAllele(xs))
    ensures multiset(SortByAllele(xs)) == multiset(xs)
  {
    if xs != [] {
      assert xs == [xs[0]] + xs[1..];
      SortByAlleleSpec(xs[1..]);
      InsertByAlleleSpec(xs[0], SortByAllele(xs[1..]));
    }
  }

  /** Everything `run_mhctyper` computes in memory from the stage-one scores. */
  datatype Typing = Typing(a1Winners: seq<Winner>, a2Scores: seq<ScoreRow>, a2Winners: seq<Winner>, result: seq<Typed>)

  /** The two-stage composition of `run_mhctyper`: the stage-one winners, stage
    * two over all stage-one rows against the winners' rows, the stage-two
    * winners, and both sets of winners tagged with the sample and sorted by
    * allele. */
  function RunTyping(a1: seq<ScoreRow>, nproc: int, round: real -> real, sample: string): Result<Typing>
    requires Reallocatable(a1, WinnerScores(a1, GetWinners(a1, round)))
  {
    var w1 := GetWinners(a1, round);
    match SecondStage(a1, WinnerScores(a1, w1), nproc)
    case Err(e) => Err(e)
    case Ok(a2) =>
      var w2 := GetWinners(a2, round);
      Ok(Typing(w1, a2, w2, SortByAllele(MapSeq(w1 + w2, SampleTag(sample)))))
  }

  /** The winner scores are exactly the stage-one rows of each gene's winning allele. */
  lemma WinnerScoresSpec(a1: seq<ScoreRow>, round: real -> real, r: ScoreRow)
    ensures var w1 := GetWinners(a1, round);
            r in WinnerScores(a1, w1) <==> r in a1 && exists x :: x in w1 && x.allele == r.allele && x.gene == r.gene
  {
    FilterMember(a1, IsWinnerRow(GetWinners(a1, round)), r);
  }

  /** Two stage-one rows differ in read pair or in allele. */
  predicate DifferentReadOrAllele(r: ScoreRow, s: ScoreRow)
  {
    r.qname != s.qname || r.allele != s.allele
  }

  /** When stage one has one row per read pair and allele, as each allele's
    * table has one row per read pair, the winner scores have one row per read
    * pair and gene: a gene has a single winning allele. */
  lemma WinnerScoresOnePerRead(a1: seq<ScoreRow>, round: real -> real)
    requires forall i, j :: 0 <= i < j < |a1| ==> DifferentReadOrAllele(a1[i], a1[j])
    ensures var ws := WinnerScores(a1, GetWinners(a1, round));
            forall i, j :: 0 <= i < j < |ws| ==> ws[i].qname != ws[j].qname || ws[i].gene != ws[j].gene
  {
    WinnersOnePerGene(a1, round);
    WinnerRowsOnePerRead(a1, GetWinners(a1, round));
  }

  /** The rows of winners with distinct genes keep one row per read pair and gene. */
  lemma WinnerRowsOnePerRead(a1: seq<ScoreRow>, w1: seq<Winner>)
    requires forall i, j :: 0 <= i < j < |a1| ==> DifferentReadOrAllele(a1[i], a1[j])
    requires forall i, j :: 0 <= i < j < |w1| ==> w1[i].gene != w1[j].gene
    ensures var ws := WinnerScores(a1, w1);
            forall i, j :: 0 <= i < j < |ws| ==> ws[i].qname != ws[j].qname || ws[i].gene != ws[j].gene
  {
    var ws := WinnerScores(a1, w1);
    var apart := DifferentReadOrAllele;
    FilterPairwise(a1, IsWinnerRow(w1), apart);
    assert ws == Filter(a1, IsWinnerRow(w1));
    assert forall i, j :: 0 <= i < j < |ws| ==> apart(ws[i], ws[j]);
    forall i, j | 0 <= i < j < |ws| && ws[i].gene == ws[j].gene
      ensures ws[i].qname != ws[j].qname
    {
      assert apart(ws[i], ws[j]);
      FilterMember(a1, IsWinnerRow(w1), ws[i]);
      FilterMember(a1, IsWinnerRow(w1), ws[j]);
      var x :| x in w1 && x.allele == ws[i].allele && x.gene == ws[i].gene;
      var y :| y in w1 && y.allele == ws[j].allele && y.gene == ws[j].gene;
      var a :| 0 <= a < |w1| && w1[a] == x;
      var b :| 0 <= b < |w1| && w1[b] == y;
      assert a == b;
    }
  }

  /** With one stage-one row per read pair and allele, stage two reallocates
    * every stage-one row of a gene exactly once, in order, against the
    * winning allele's row of the same read pair. */
  lemma SecondStageOneToOne(a1: seq<ScoreRow>, round: real -> real, gene: string)
    requires forall i, j :: 0 <= i < j < |a1| ==> DifferentReadOrAllele(a1[i], a1[j])
    requires Reallocatable(a1, WinnerScores(a1, GetWinners(a1, round)))
    ensures var ws := WinnerScores(a1, GetWinners(a1, round));
            var rows := Filter(a1, OfGene(gene));
            var out := ScoreSecondByGene(gene, a1, ws);
            && |out| == |rows|
            && forall i :: 0 <= i < |rows| ==> rows[i].gene == gene && ReallocatedFrom(out[i], rows[i], ws)
  {
    WinnerScoresOnePerRead(a1, round);
    ReallocationOneToOne(gene, a1, WinnerScores(a1, GetWinners(a1, round)));
  }

  /** The winners cover exactly the genes of the rows. */
  lemma WinnerGenesOfRows(rows: seq<ScoreRow>, round: real -> real, g: string)
    ensures (exists x :: x in GetWinners(rows, round) && x.gene == g) <==> (exists r :: r in rows && r.gene == g)
  {
    WinnersOnePerGene(rows, round);
    WinnersCover(rows, round);
    TotalsOfRows(rows, round);
  }

  /** In winners with distinct genes, a gene has one winner or none. */
  lemma GeneMultiplicity(w: seq<Winner>, g: string)
    requires forall i, j :: 0 <= i < j < |w| ==> w[i].gene != w[j].gene
    ensures multiset(MapSeq(w, WinnerGene))[g] == if exists x :: x in w && x.gene == g then 1 else 0
  {
    var gs := MapSeq(w, WinnerGene);
    forall i | 0 <= i < |gs|
      ensures gs[i] == w[i].gene
    {
      assert gs[i] == WinnerGene(w[i]);
    }
    DistinctMultiplicity(gs, g);
    if g in gs {
      var i :| 0 <= i < |gs| && gs[i] == g;
      assert w[i] in w;
    } else {
      forall x | x in w
        ensures x.gene != g
      {
        var i :| 0 <= i < |w| && w[i] == x;
        assert gs[i] == x.gene;
      }
    }
  }

  /** The number of winners of gene `g`: one for a gene of the rows, none otherwise. */
  lemma WinnerMultiplicity(rows: seq<ScoreRow>, round: real -> real, g: string)
    ensures multiset(MapSeq(GetWinners(rows, round), WinnerGene))[g]
            == if exists r :: r in rows && r.gene == g then 1 else 0
  {
    WinnersOnePerGene(rows, round);
    GeneMultiplicity(GetWinners(rows, round), g);
    WinnerGenesOfRows(rows, round, g);
  }

  /** Every gene of stage one has rows among the winner scores. */
  lemma WinnerScoresCover(a1: seq<ScoreRow>, round: real -> real, s: ScoreRow)
    requires s in a1
    ensures exists r :: r in WinnerScores(a1, GetWinners(a1, round)) && r.gene == s.gene
  {
    var w1 := GetWinners(a1, round);
    WinnersCover(a1, round);
    var x :| x in w1 && x.gene == s.gene;
    WinnersOnePerGene(a1, round);
    TotalsOfRows(a1, round);
    var r :| r in a1 && r.allele == x.allele && r.gene == x.gene;
    WinnerScoresSpec(a1, round, r);
  }

  /** The winner scores cover every gene of stage one. */
  lemma WinnerScoresGenes(a1: seq<ScoreRow>, round: real -> real)
    ensures forall s :: s in a1 ==> s.gene in MapSeq(WinnerScores(a1, GetWinners(a1, round)), RowGene)
  {
    var ws := WinnerScores(a1, GetWinners(a1, round));
    forall s | s in a1
      ensures s.gene in MapSeq(ws, RowGene)
    {
      WinnerScoresCover(a1, round, s);
      var r :| r in ws && r.gene == s.gene;
      MapSeqMember(ws, RowGene, r);
    }
  }

  /** Stage two covers exactly the genes of stage one. */
  lemma SecondStageGenes(a1: seq<ScoreRow>, ws: seq<ScoreRow>, nproc: int, g: string)
    requires Reallocatable(a1, ws)
    requires SecondStage(a1, ws, nproc).Ok?
    requires forall s :: s in a1 ==> s.gene in MapSeq(ws, RowGene)
    ensures (exists o :: o in SecondStage(a1, ws, nproc).value && o.gene == g) <==> (exists s :: s in a1 && s.gene == g)
  {
    var a2 := SecondStage(a1, ws, nproc).value;
    if o :| o in a2 && o.gene == g {
      SecondStageRowsFrom(a1, ws, nproc, o);
    }
    if s :| s in a1 && s.gene == g {
      SecondStageCovers(a1, ws, nproc, s);
    }
  }

  /** The final rows carry the genes of the winners. */
  lemma TaggedGenes(ws: seq<Winner>, sample: string)
    ensures MapSeq(MapSeq(ws, SampleTag(sample)), TypedGene) == MapSeq(ws, WinnerGene)
  {
    var tagged := MapSeq(ws, SampleTag(sample));
    forall i | 0 <= i < |ws|
      ensures MapSeq(tagged, TypedGene)[i] == MapSeq(ws, WinnerGene)[i]
    {
      assert tagged[i] == SampleTag(sample)(ws[i]);
      assert MapSeq(tagged, TypedGene)[i] == TypedGene(tagged[i]) == tagged[i].gene;
      assert MapSeq(ws, WinnerGene)[i] == WinnerGene(ws[i]) == ws[i].gene;
    }
  }

  /** The genes of a permutation of the tagged winners of both stages. */
  lemma GenesOfBoth(result: seq<Typed>, w1: seq<Winner>, w2: seq<Winner>, sample: string, g: string)
    requires multiset(result) == multiset(MapSeq(w1 + w2, SampleTag(sample)))
    ensures multiset(MapSeq(result, TypedGene))[g]
            == multiset(MapSeq(w1, WinnerGene))[g] + multiset(MapSeq(w2, WinnerGene))[g]
  {
    var tagged := MapSeq(w1 + w2, SampleTag(sample));
    MapSeqPermutation(result, tagged, TypedGene);
    TaggedGenes(w1 + w2, sample);
    MapSeqAppend(w1, w2, WinnerGene);
  }

  /** The typing succeeds exactly when the pool has a worker and there is a
    * stage-one row. */
  lemma RunTypingOk(a1: seq<ScoreRow>, nproc: int, round: real -> real, sample: string)
    requires Reallocatable(a1, WinnerScores(a1, GetWinners(a1, round)))
    ensures RunTyping(a1, nproc, round, sample).Ok? <==> nproc >= 1 && a1 != []
  {
    var ws := WinnerScores(a1, GetWinners(a1, round));
    SecondStageNeverEmpty(a1, ws, nproc);
    if a1 != [] {
      WinnerScoresCover(a1, round, a1[0]);
    } else {
      assert ws == [];
    }
  }

  /** On success the result is both sets of winners tagged with the sample and
    * sorted by allele. */
  lemma RunTypingSpec(a1: seq<ScoreRow>, nproc: int, round: real -> real, sample: string)
    requires Reallocatable(a1, WinnerScores(a1, GetWinners(a1, round)))
    requires RunTyping(a1, nproc, round, sample).Ok?
    ensures var t := RunTyping(a1, nproc, round, sample).value;
            && t.a1Winners == GetWinners(a1, round)
            && t.a2Scores == SecondStage(a1, WinnerScores(a1, t.a1Winners), nproc).value
            && t.a2Winners == GetWinners(t.a2Scores, round)
            && SortedByAllele(t.result)
            && multiset(t.result) == multiset(MapSeq(t.a1Winners + t.a2Winners, SampleTag(sample)))
            && (forall x :: x in t.result ==> x.sample == sample)
  {
    var t := RunTyping(a1, nproc, round, sample).value;
    var tagged := MapSeq(t.a1Winners + t.a2Winners, SampleTag(sample));
    assert t.result == SortByAllele(tagged);
    SortByAlleleSpec(tagged);
    forall y | y in t.result
      ensures y.sample == sample
    {
      assert y in multiset(tagged);
    }
  }

  /** The result holds exactly two rows for every gene of stage one and none
    * for any other gene. */
  lemma RunTypingTwoPerGene(a1: seq<ScoreRow>, nproc: int, round: real -> real, sample: string, g: string)
    requires Reallocatable(a1, WinnerScores(a1, GetWinners(a1, round)))
    requires RunTyping(a1, nproc, round, sample).Ok?
    ensures multiset(MapSeq(RunTyping(a1, nproc, round, sample).value.result, TypedGene))[g]
            == if exists s :: s in a1 && s.gene == g then 2 else 0
  {
    var t := RunTyping(a1, nproc, round, sample).value;
    var w1 := GetWinners(a1, round);
    var ws := WinnerScores(a1, w1);
    var a2 := SecondStage(a1, ws, nproc).value;
    var w2 := GetWinners(a2, round);
    assert t.a1Winners == w1 && t.a2Winners == w2 by {
      RunTypingSpec(a1, nproc, round, sample);
    }
    var inA1 := exists s :: s in a1 && s.gene == g;
    var inA2 := exists o :: o in a2 && o.gene == g;
    assert inA1 == inA2 by {
      WinnerScoresGenes(a1, round);
      SecondStageGenes(a1, ws, nproc, g);
    }
    var m1 := multiset(MapSeq(w1, WinnerGene))[g];
    var m2 := multiset(MapSeq(w2, WinnerGene))[g];
    assert m1 == if inA1 then 1 else 0 by {
      WinnerMultiplicity(a1, round, g);
    }
    assert m2 == if inA2 then 1 else 0 by {
      WinnerMultiplicity(a2, round, g);
    }
    assert multiset(MapSeq(t.result, TypedGene))[g] == m1 + m2 by {
      RunTypingSpec(a1, nproc, round, sample);
      GenesOfBoth(t.result, w1, w2, sample, g);
    }
  }

  /** Nothing keeps the first winner out of stage two: every stage-two winner is
    * an allele of stage one, so a gene typed from one allele alone gets that
    * allele for both copies. */
  lemma SecondWinnersFromFirst(a1: seq<ScoreRow>, nproc: int, round: real -> real, sample: string)
    requires Reallocatable(a1, WinnerScores(a1, GetWinners(a1, round)))
    requires RunTyping(a1, nproc, round, sample).Ok?
    ensures var t := RunTyping(a1, nproc, round, sample).value;
            forall x :: x in t.a2Winners ==> exists s :: s in a1 && s.allele == x.allele && s.gene == x.gene
  {
    var w1 := GetWinners(a1, round);
    var ws := WinnerScores(a1, w1);
    var a2 := SecondStage(a1, ws, nproc).value;
    WinnersOnePerGene(a2, round);
    TotalsOfRows(a2, round);
    forall x | x in GetWinners(a2, round)
      ensures exists s :: s in a1 && s.allele == x.allele && s.gene == x.gene
    {
      var o :| o in a2 && o.allele == x.allele && o.gene == x.gene;
      SecondStageRowsFrom(a1, ws, nproc, o);
    }
  }

  /** A gene whose stage-one rows all name one allele is typed as that allele twice. */
  lemma HomozygousTyping(a1: seq<ScoreRow>, nproc: int, round: real -> real, sample: string, g: string, a: string)
    requires Reallocatable(a1, WinnerScores(a1, GetWinners(a1, round)))
    requires RunTyping(a1, nproc, round, sample).Ok?
    requires forall s :: s in a1 && s.gene == g ==> s.allele == a
    ensures var t := RunTyping(a1, nproc, round, sample).value;
            forall x :: x in t.result && x.gene == g ==> x.allele == a
  {
    var t := RunTyping(a1, nproc, round, sample).value;
    var w1 := GetWinners(a1, round);
    var tagged := MapSeq(w1 + t.a2Winners, SampleTag(sample));
    SecondWinnersFromFirst(a1, nproc, round, sample);
    WinnersOnePerGene(a1, round);
    TotalsOfRows(a1, round);
    RunTypingSpec(a1, nproc, round, sample);
    forall x | x in t.result && x.gene == g
      ensures x.allele == a
    {
      assert x in multiset(tagged);
      var i :| 0 <= i < |tagged| && tagged[i] == x;
      var y := (w1 + t.a2Winners)[i];
      assert y in w1 || y in t.a2Winners;
    }
  }
}
