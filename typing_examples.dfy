/** Concrete score tables run through `get_winners` and the two-stage typing. */
module TypingExamples {
  import opened Outcomes
  import opened Seqs
  import opened Text
  import opened Scoring
  import opened Typing

  /** Comparison skips a common prefix. */
  lemma {:induction false} StrLessEqAfter(p: string, a: string, b: string)
    ensures StrLessEq(p + a, p + b) == StrLessEq(a, b)
  {
    if p != [] {
      assert (p + a)[0] == p[0] && (p + b)[0] == p[0];
      assert (p + a)[1..] == p[1..] + a;
      assert (p + b)[1..] == p[1..] + b;
      StrLessEqAfter(p[1..], a, b);
    } else {
      assert p + a == a && p + b == b;
    }
  }

  /** Rows of one gene whose totals all lose to `best` have `best` as their
    * only winner. */
  lemma OnlyWinner(rows: seq<ScoreRow>, round: real -> real, best: Winner)
    requires rows != []
    requires forall r :: r in rows ==> r.gene == best.gene
    requires best in Totals(rows, round)
    requires forall t :: t in Totals(rows, round) && t != best ==>
               t.total < best.total || (t.total == best.total && !StrLessEq(t.allele, best.allele))
    ensures GetWinners(rows, round) == [best]
  {
    var w := GetWinners(rows, round);
    var ts := Totals(rows, round);
    WinnersSpec(rows, round);
    TotalsOfRows(rows, round);
    assert rows[0] in rows;
    forall t | t in ts
      ensures t.gene == best.gene
    {
      var r :| r in rows && r.allele == t.allele && r.gene == t.gene;
    }
    OnlyCandidate(w, ts, best);
  }

  /** Winners of distinct genes, drawn from totals of one gene, each beating
    * every total, are the one total that beats all others. */
  lemma OnlyCandidate(w: seq<Winner>, ts: seq<Winner>, best: Winner)
    requires w != []
    requires forall i, j :: 0 <= i < j < |w| ==> w[i].gene != w[j].gene
    requires forall x :: x in w ==> x in ts
    requires best in ts
    requires forall t :: t in ts ==> t.gene == best.gene
    requires forall x, t :: x in w && t in ts && t.gene == x.gene ==>
               t.total <= x.total && (t.total == x.total ==> StrLessEq(x.allele, t.allele))
    requires forall t :: t in ts && t != best ==>
               t.total < best.total || (t.total == best.total && !StrLessEq(t.allele, best.allele))
    ensures w == [best]
  {
    forall i | 0 <= i < |w|
      ensures w[i] == best
    {
      assert w[i] in w;
    }
    assert 1 < |w| ==> w[0].gene != w[1].gene;
  }

  /** A tie of totals goes to the lexicographically smaller allele:
    * `hla_a_26_01_01` beats `hla_a_26_01_24`. */
  lemma TieGoesToSmallerAllele(rows: seq<ScoreRow>, round: real -> real)
    requires rows == [ScoreRow("r1", 1.0, "hla_a_26_01_24", "hla_a"), ScoreRow("r1", 1.0, "hla_a_26_01_01", "hla_a")]
    ensures GetWinners(rows, round) == [Winner("hla_a_26_01_01", "hla_a", round(1.0))]
  {
    var best := Winner("hla_a_26_01_01", "hla_a", round(1.0));
    TotalsOfRows(rows, round);
    TiedTotals(rows, Totals(rows, round), round);
    TotalsCover(rows, round);
    SumWhereOfTwo(rows, ("hla_a_26_01_01", "hla_a"));
    assert rows[1] in rows;
    OnlyWinner(rows, round, best);
  }

  /** Both totals of the tie example are `round(1.0)`, and the other allele
    * sorts after `hla_a_26_01_01`. */
  lemma TiedTotals(rows: seq<ScoreRow>, ts: seq<Winner>, round: real -> real)
    requires rows == [ScoreRow("r1", 1.0, "hla_a_26_01_24", "hla_a"), ScoreRow("r1", 1.0, "hla_a_26_01_01", "hla_a")]
    requires forall t :: t in ts ==>
               (exists r :: r in rows && r.allele == t.allele && r.gene == t.gene)
               && t.total == round(SumWhere(rows, AlleleGene, RowScore, (t.allele, t.gene)))
    ensures forall t :: t in ts && t != Winner("hla_a_26_01_01", "hla_a", round(1.0)) ==>
              t.total == round(1.0) && !StrLessEq(t.allele, "hla_a_26_01_01")
  {
    forall t | t in ts && t != Winner("hla_a_26_01_01", "hla_a", round(1.0))
      ensures t.total == round(1.0) && !StrLessEq(t.allele, "hla_a_26_01_01")
    {
      var r :| r in rows && r.allele == t.allele && r.gene == t.gene;
      TiedTotal(rows, round, t, r);
    }
  }

  /** One total of the tie example other than the winner's. */
  lemma TiedTotal(rows: seq<ScoreRow>, round: real -> real, t: Winner, r: ScoreRow)
    requires rows == [ScoreRow("r1", 1.0, "hla_a_26_01_24", "hla_a"), ScoreRow("r1", 1.0, "hla_a_26_01_01", "hla_a")]
    requires r in rows && r.allele == t.allele && r.gene == t.gene
    requires t.total == round(SumWhere(rows, AlleleGene, RowScore, (t.allele, t.gene)))
    requires t != Winner("hla_a_26_01_01", "hla_a", round(1.0))
    ensures t.total == round(1.0) && !StrLessEq(t.allele, "hla_a_26_01_01")
  {
    TieOrder();
    assert "hla_a_26_01_24"[12] != "hla_a_26_01_01"[12];
    SumWhereOfTwo(rows, (t.allele, t.gene));
    var x24, x01 := "hla_a_26_01_24", "hla_a_26_01_01";
    assert AlleleGene(rows[0]) == (x24, "hla_a") && AlleleGene(rows[1]) == (x01, "hla_a");
    if r == rows[0] {
      assert (t.allele, t.gene) == (x24, "hla_a") != (x01, "hla_a");
      assert SumWhere(rows, AlleleGene, RowScore, (t.allele, t.gene)) == 1.0 + 0.0;
    } else {
      assert false;
    }
  }

  /** The total of one allele and gene over two rows. */
  lemma SumWhereOfTwo(rows: seq<ScoreRow>, q: (string, string))
    requires |rows| == 2
    ensures SumWhere(rows, AlleleGene, RowScore, q)
            == (if AlleleGene(rows[0]) == q then rows[0].score else 0.0)
             + (if AlleleGene(rows[1]) == q then rows[1].score else 0.0)
  {
    var tail := rows[1..];
    assert tail[0] == rows[1] && tail[1..] == [];
    assert SumWhere(tail[1..], AlleleGene, RowScore, q) == 0.0;
    assert SumWhere(tail, AlleleGene, RowScore, q)
           == (if AlleleGene(rows[1]) == q then rows[1].score else 0.0) + 0.0;
  }

  /** `hla_a_26_01_24` does not come before `hla_a_26_01_01`. */
  lemma TieOrder()
    ensures !StrLessEq("hla_a_26_01_24", "hla_a_26_01_01")
  {
    assert "hla_a_26_01_24" == "hla_a_26_01_" + "24" && "hla_a_26_01_01" == "hla_a_26_01_" + "01";
    StrLessEqAfter("hla_a_26_01_", "24", "01");
  }

  /** The stage-one rows of the two-stage example: read pair `r1` scores 10
    * for `hla_a_01_01_01` and 2 for `hla_a_02_01_01`, read pair `r2` scores 5
    * for `hla_a_02_01_01` only. */
  function ExampleRows(): seq<ScoreRow>
  {
    [ ScoreRow("r1", 10.0, "hla_a_01_01_01", "hla_a"),
      ScoreRow("r1", 2.0, "hla_a_02_01_01", "hla_a"),
      ScoreRow("r2", 5.0, "hla_a_02_01_01", "hla_a") ]
  }

  /** `hla_a_02_01_01` does not come before `hla_a_01_01_01`. */
  lemma SecondAlleleAfterFirst()
    ensures !StrLessEq("hla_a_02_01_01", "hla_a_01_01_01")
  {
    assert "hla_a_02_01_01" == "hla_a_0" + "2_01_01" && "hla_a_01_01_01" == "hla_a_0" + "1_01_01";
    StrLessEqAfter("hla_a_0", "2_01_01", "1_01_01");
  }

  /** Stage one: totals 10 for `hla_a_01_01_01` and 7 for `hla_a_02_01_01`. */
  lemma FirstStageWinner(round: real -> real)
    requires forall x :: round(x) == x
    ensures GetWinners(ExampleRows(), round) == [Winner("hla_a_01_01_01", "hla_a", 10.0)]
  {
    var rows := ExampleRows();
    TotalsOfRows(rows, round);
    TotalsCover(rows, round);
    assert rows[0] in rows;
    OnlyWinner(rows, round, Winner("hla_a_01_01_01", "hla_a", 10.0));
  }

  /** The rows stage two hands on: `r1` keeps 10·10/20 = 5 for
    * `hla_a_01_01_01` and 2·2/12 = 1/3 for `hla_a_02_01_01`; `r2` has no
    * winner row and keeps 5. */
  lemma SecondStageRows(nproc: int)
    requires nproc >= 1
    ensures Reallocatable(ExampleRows(), [ExampleRows()[0]])
    ensures SecondStage(ExampleRows(), [ExampleRows()[0]], nproc)
            == Ok([ ScoreRow("r1", 5.0, "hla_a_01_01_01", "hla_a"),
                    ScoreRow("r1", 1.0 / 3.0, "hla_a_02_01_01", "hla_a"),
                    ScoreRow("r2", 5.0, "hla_a_02_01_01", "hla_a") ])
  {
    var a1 := ExampleRows();
    var ws := [a1[0]];
    ExampleReallocation();
    OneWinnerGene(a1[0]);
    var t := ScoreSecondByGene("hla_a", a1, ws);
    var units := SecondUnits(["hla_a"], a1, ws);
    assert units == [Ok(Some(t))];
    OneTableStage(units, t, nproc, NoScorableGenes);
  }

  /** Reallocating the example's rows against the winner row of `r1`. */
  lemma ExampleReallocation()
    ensures Reallocatable(ExampleRows(), [ExampleRows()[0]])
    ensures ScoreSecondByGene("hla_a", ExampleRows(), [ExampleRows()[0]])
            == [ ScoreRow("r1", 5.0, "hla_a_01_01_01", "hla_a"),
                 ScoreRow("r1", 1.0 / 3.0, "hla_a_02_01_01", "hla_a"),
                 ScoreRow("r2", 5.0, "hla_a_02_01_01", "hla_a") ]
  {
    var a1 := ExampleRows();
    var ws := [a1[0]];
    assert Filter(ws, SameRead(a1[0])) == ws;
    assert Filter(ws, SameRead(a1[1])) == ws;
    assert Filter(ws, SameRead(a1[2])) == [];
    assert MapSeq(ws, RowScore) == [10.0];
    forall s, v | s in a1 && v in Partners(s, ws)
      ensures s.score + v != 0.0
    {
    }
    assert Filter(a1, OfGene("hla_a")) == a1;
    assert Filter(ws, OfGene("hla_a")) == ws;
    assert Partners(a1[0], ws) == [10.0] && Partners(a1[1], ws) == [10.0] && Partners(a1[2], ws) == [0.0];
    assert JoinReallocate(a1[2..], ws) == [a1[2]] by {
      assert a1[2..][1..] == [];
      assert JoinedRows(a1[2], [0.0]) == [a1[2]];
    }
    assert JoinReallocate(a1[1..], ws) == [a1[1].(score := 1.0 / 3.0), a1[2]] by {
      assert a1[1..][1..] == a1[2..];
      assert JoinedRows(a1[1], [10.0]) == [a1[1].(score := 1.0 / 3.0)];
    }
    assert JoinedRows(a1[0], [10.0]) == [a1[0].(score := 5.0)];
  }

  /** One winner row has its own gene as the only winner gene. */
  lemma OneWinnerGene(w: ScoreRow)
    ensures WinnerGenes([w]) == [w.gene]
  {
    var gs := MapSeq([w], RowGene);
    assert |gs| == 1 && gs[0] == RowGene(w);
    assert gs[..|gs| - 1] == [] && Distinct(gs[..|gs| - 1]) == [];
    assert Distinct(gs) == [] + [gs[0]];
  }

  /** A stage whose one unit returns table `t` yields `t`. */
  lemma OneTableStage(units: seq<Outcome>, t: seq<ScoreRow>, nproc: int, empty: Error)
    requires units == [Ok(Some(t))] && nproc >= 1
    ensures Stage(units, Min(nproc, 1), empty) == Ok(t)
  {
    assert CollectTables(units[..0]) == Ok([]);
    CollectTablesNext(units, 0, []);
    assert [] + [t] == [t] && units[..1] == units;
    assert Flatten([t]) == t + Flatten([]) && t + [] == t;
  }

  /** Stage two: 5 for `hla_a_01_01_01` against 5 + 1/3 for `hla_a_02_01_01`,
    * so the second copy of the gene is `hla_a_02_01_01`. */
  lemma SecondStageWinner(round: real -> real)
    requires forall x :: round(x) == x
    ensures var a2 := [ ScoreRow("r1", 5.0, "hla_a_01_01_01", "hla_a"),
                        ScoreRow("r1", 1.0 / 3.0, "hla_a_02_01_01", "hla_a"),
                        ScoreRow("r2", 5.0, "hla_a_02_01_01", "hla_a") ];
            GetWinners(a2, round) == [Winner("hla_a_02_01_01", "hla_a", 16.0 / 3.0)]
  {
    var a2 := [ ScoreRow("r1", 5.0, "hla_a_01_01_01", "hla_a"),
                ScoreRow("r1", 1.0 / 3.0, "hla_a_02_01_01", "hla_a"),
                ScoreRow("r2", 5.0, "hla_a_02_01_01", "hla_a") ];
    TotalsOfRows(a2, round);
    TotalsCover(a2, round);
    assert a2[1] in a2;
    OnlyWinner(a2, round, Winner("hla_a_02_01_01", "hla_a", 16.0 / 3.0));
  }

  /** The whole run: stage one types `hla_a_01_01_01` with 10, and stage two,
    * which reallocates `r1` towards it, types `hla_a_02_01_01` with 16/3. */
  lemma TwoStageExample(nproc: int, round: real -> real, sample: string)
    requires nproc >= 1 && forall x :: round(x) == x
    ensures Reallocatable(ExampleRows(), WinnerScores(ExampleRows(), GetWinners(ExampleRows(), round)))
    ensures var r := RunTyping(ExampleRows(), nproc, round, sample);
            && r.Ok?
            && r.value.a1Winners == [Winner("hla_a_01_01_01", "hla_a", 10.0)]
            && r.value.a2Winners == [Winner("hla_a_02_01_01", "hla_a", 16.0 / 3.0)]
  {
    var a1 := ExampleRows();
    var w1 := GetWinners(a1, round);
    FirstStageWinner(round);
    assert WinnerScores(a1, w1) == [a1[0]] by {
      assert IsWinnerRow(w1)(a1[0]);
      assert !IsWinnerRow(w1)(a1[1]) && !IsWinnerRow(w1)(a1[2]);
    }
    SecondStageRows(nproc);
    SecondStageWinner(round);
  }
}
