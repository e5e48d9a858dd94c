/** The needed-score calculator (src/core/grading/computeNeededScore.ts). */
module ComputeNeededScore {
  import opened Wrappers
  import opened GradingModels
  import CalculateFinalGrade

  /** The score still needed on the remaining weight to reach `notaMinima`, and
      the five-way classification of the unit. A requirement at or below 0 is
      reported as exactly 0; one above `notaMaxima` is reported unclamped. */
  function ComputeNeededScore(avs: seq<AvaliacaoComponent>, notaMinima: real, notaMaxima: real, temExameRecurso: bool)
    : (r: NeededScoreResult)
    ensures r.notaNecessaria.None? <==> PesoRestante(avs) <= 0.0
    ensures r.notaNecessaria.Some? ==> r.notaNecessaria.value >= 0.0
    ensures r.estado == Concluida ==> PesoRestante(avs) <= 0.0
    ensures r.estado == EmJogo ==> r.notaNecessaria.Some? && 0.0 < r.notaNecessaria.value <= notaMaxima
    ensures r.estado == Estado.PrecisaExame ==>
              temExameRecurso && r.notaNecessaria.Some? && r.notaNecessaria.value > notaMaxima
    ensures r.estado == Estado.Impossivel ==>
              !temExameRecurso && r.notaNecessaria.Some? && r.notaNecessaria.value > notaMaxima
    ensures r.notaNecessaria.Some? && r.notaNecessaria.value > 0.0 && r.notaNecessaria.value > notaMaxima ==>
              r.estado == (if temExameRecurso then Estado.PrecisaExame else Estado.Impossivel)
    ensures r.notaNecessaria == Some(0.0) ==> r.estado == JaAprovado
  {
    var pesosAvaliados := PesosAvaliados(avs);
    var notaPonderada := NotaPonderada(avs);
    var pesoRestante := PesoRestante(avs);
    if pesoRestante <= 0.0 then
      var media := if pesosAvaliados > 0.0 then notaPonderada / pesosAvaliados else 0.0;
      NeededScoreResult(None, if media >= notaMinima then JaAprovado else Concluida)
    else
      var pontosNecessariosTotal := notaMinima * NominalTotalWeight;
      var pontosQueFaltam := pontosNecessariosTotal - notaPonderada;
      var notaNecessaria := pontosQueFaltam / pesoRestante;
      if notaNecessaria <= 0.0 then
        NeededScoreResult(Some(0.0), JaAprovado)
      else if notaNecessaria > notaMaxima then
        NeededScoreResult(Some(notaNecessaria), if temExameRecurso then Estado.PrecisaExame else Estado.Impossivel)
      else
        NeededScoreResult(Some(notaNecessaria), EmJogo)
  }

  /** Fully graded: no needed score, and the unit is `ja_aprovado` exactly when
      the weighted average reaches `notaMinima`, else `concluida`. The graded
      weight is then at least 100, so the zero-average fallback never applies. */
  lemma FullyGradedOutcome(avs: seq<AvaliacaoComponent>, notaMinima: real, notaMaxima: real, temExameRecurso: bool)
    requires PesoRestante(avs) <= 0.0
    ensures PesosAvaliados(avs) >= NominalTotalWeight > 0.0
    ensures var r := ComputeNeededScore(avs, notaMinima, notaMaxima, temExameRecurso);
            r.notaNecessaria == None &&
            (r.estado == JaAprovado <==> NotaPonderada(avs) / PesosAvaliados(avs) >= notaMinima) &&
            (r.estado != JaAprovado <==> r.estado == Concluida)
  {
  }

  /** The needed score is the threshold of the projection: scoring `s` on the
      remaining weight projects at least `notaMinima` when `s` reaches the needed
      score, and less when it falls short. */
  lemma NeededScoreIsPassingThreshold(avs: seq<AvaliacaoComponent>, notaMinima: real, notaMaxima: real,
                                      temExameRecurso: bool, s: real)
    requires PesoRestante(avs) > 0.0
    requires s >= 0.0
    ensures var nn := ComputeNeededScore(avs, notaMinima, notaMaxima, temExameRecurso).notaNecessaria;
            var p := CalculateFinalGrade.CalculateGradeOverview(avs, Some(s)).projecao;
            nn.Some? && p.Some? &&
            (s >= nn.value ==> p.value >= notaMinima) &&
            (s < nn.value ==> p.value < notaMinima)
  {
    var pr := PesoRestante(avs);
    var np := NotaPonderada(avs);
    var raw := (notaMinima * NominalTotalWeight - np) / pr;
    var nn := ComputeNeededScore(avs, notaMinima, notaMaxima, temExameRecurso).notaNecessaria.value;
    assert nn == if raw <= 0.0 then 0.0 else raw;
    var p := CalculateFinalGrade.CalculateGradeOverview(avs, Some(s)).projecao.value;
    assert p * 100.0 == np + s * pr;
    assert raw * pr == notaMinima * 100.0 - np;
    ThresholdArith(np, pr, s, notaMinima, p, raw, nn);
  }

  /** The arithmetic of the threshold: with `raw` the exact need and `nn` its value
      clamped at 0, a projection from score `s` reaches `target` iff `s >= nn`. */
  lemma ThresholdArith(np: real, pr: real, s: real, target: real, p: real, raw: real, nn: real)
    requires pr > 0.0 && s >= 0.0
    requires p * 100.0 == np + s * pr
    requires raw * pr == target * 100.0 - np
    requires nn == if raw <= 0.0 then 0.0 else raw
    ensures s >= nn ==> p >= target
    ensures s < nn ==> p < target
  {
    if s >= nn {
      if raw <= 0.0 {
        MulMonotone(raw, 0.0, pr);
        MulMonotone(0.0, s, pr);
      } else {
        MulMonotone(raw, s, pr);
      }
      assert s * pr >= raw * pr;
    } else {
      MulStrict(s, raw, pr);
      assert s * pr < raw * pr;
    }
  }

  lemma CancelPositive(a: real, b: real, k: real)
    requires k > 0.0
    ensures a * k >= b * k <==> a >= b
  {
    if a >= b {
      MulMonotone(b, a, k);
    } else {
      MulStrict(a, b, k);
    }
  }

  lemma MulStrict(a: real, b: real, w: real)
    requires a < b && w > 0.0
    ensures a * w < b * w
  {
    assert b * w - a * w == (b - a) * w;
  }

  /** Scoring exactly the needed score on the remaining weight lands exactly on
      `notaMinima` whenever the needed score was not clamped to 0. */
  lemma NeededScoreExactlyPasses(avs: seq<AvaliacaoComponent>, notaMinima: real, notaMaxima: real, temExameRecurso: bool)
    requires PesoRestante(avs) > 0.0
    requires ComputeNeededScore(avs, notaMinima, notaMaxima, temExameRecurso).estado != JaAprovado
    ensures var nn := ComputeNeededScore(avs, notaMinima, notaMaxima, temExameRecurso).notaNecessaria.value;
            (NotaPonderada(avs) + nn * PesoRestante(avs)) / NominalTotalWeight == notaMinima &&
            CalculateFinalGrade.CalculateGradeOverview(avs, Some(nn)).projecao == Some(notaMinima)
  {
    var pr := PesoRestante(avs);
    var np := NotaPonderada(avs);
    var nn := (notaMinima * NominalTotalWeight - np) / pr;
    assert nn * pr == notaMinima * NominalTotalWeight - np;
    var p := CalculateFinalGrade.CalculateGradeOverview(avs, Some(nn)).projecao.value;
    assert p * NominalTotalWeight == np + nn * pr;
  }

  /** The retake-exam flag changes the result only when the needed score is out
      of reach; `concluida` never depends on it either. */
  lemma RetakeFlagOnlyMattersOutOfReach(avs: seq<AvaliacaoComponent>, notaMinima: real, notaMaxima: real)
    ensures var withExam := ComputeNeededScore(avs, notaMinima, notaMaxima, true);
            var without := ComputeNeededScore(avs, notaMinima, notaMaxima, false);
            (withExam == without <==> without.estado != Estado.Impossivel) &&
            (without.estado == Estado.Impossivel <==> withExam.estado == Estado.PrecisaExame) &&
            withExam.notaNecessaria == without.notaNecessaria
  {
  }

  // ---------------------------------------------------------------------------
  // Monotonicity: a better graded score never raises the needed score.
  // ---------------------------------------------------------------------------

  /** `avs2` is `avs` with the score of graded assessment `i` raised to `v`. */
  ghost predicate ScoreRaised(avs: seq<AvaliacaoComponent>, avs2: seq<AvaliacaoComponent>, i: int, v: real) {
    && 0 <= i < |avs|
    && IsGraded(avs[i])
    && v >= avs[i].notaObtida.value
    && avs2 == avs[i := avs[i].(notaObtida := Some(v))]
  }

  lemma {:induction false} MaskedSumsUnderRaise(avs: seq<AvaliacaoComponent>, avs2: seq<AvaliacaoComponent>, i: int, v: real)
    requires ScoreRaised(avs, avs2, i, v)
    requires avs[i].peso >= 0.0
    ensures MaskedPeso(avs2) == MaskedPeso(avs)
    ensures MaskedPonderada(avs2) >= MaskedPonderada(avs)
    decreases i
  {
    if i == 0 {
      assert avs2[1..] == avs[1..];
      MulMonotone(avs[0].notaObtida.value, v, avs[0].peso);
    } else {
      assert avs2[1..] == avs[1..][i - 1 := avs[i].(notaObtida := Some(v))];
      MaskedSumsUnderRaise(avs[1..], avs2[1..], i - 1, v);
    }
  }

  /** Raising one graded score (with non-negative weight) keeps the graded and
      remaining weights and does not lower the weighted score sum. */
  lemma SumsUnderRaise(avs: seq<AvaliacaoComponent>, avs2: seq<AvaliacaoComponent>, i: int, v: real)
    requires ScoreRaised(avs, avs2, i, v)
    requires avs[i].peso >= 0.0
    ensures PesosAvaliados(avs2) == PesosAvaliados(avs)
    ensures PesoRestante(avs2) == PesoRestante(avs)
    ensures NotaPonderada(avs2) >= NotaPonderada(avs)
  {
    GradedSumsMatchMasked(avs);
    GradedSumsMatchMasked(avs2);
    MaskedSumsUnderRaise(avs, avs2, i, v);
  }

  /** Raising a graded score never increases the returned needed score. */
  lemma NeededScoreMonotone(avs: seq<AvaliacaoComponent>, avs2: seq<AvaliacaoComponent>, i: int, v: real,
                            notaMinima: real, notaMaxima: real, temExameRecurso: bool)
    requires ScoreRaised(avs, avs2, i, v)
    requires avs[i].peso >= 0.0
    ensures var before := ComputeNeededScore(avs, notaMinima, notaMaxima, temExameRecurso).notaNecessaria;
            var after := ComputeNeededScore(avs2, notaMinima, notaMaxima, temExameRecurso).notaNecessaria;
            (after.Some? <==> before.Some?) && (after.Some? ==> after.value <= before.value)
  {
    SumsUnderRaise(avs, avs2, i, v);
    var pr := PesoRestante(avs);
    if pr > 0.0 {
      var target := notaMinima * NominalTotalWeight;
      DivMonotone(target - NotaPonderada(avs2), target - NotaPonderada(avs), pr);
    }
  }

  /** Raising a graded score never lowers the partial average. */
  lemma PartialAverageMonotone(avs: seq<AvaliacaoComponent>, avs2: seq<AvaliacaoComponent>, i: int, v: real)
    requires ScoreRaised(avs, avs2, i, v)
    requires avs[i].peso >= 0.0
    ensures var before := CalculateFinalGrade.CalculateGradeOverview(avs, None).mediaParcial;
            var after := CalculateFinalGrade.CalculateGradeOverview(avs2, None).mediaParcial;
            (after.Some? <==> before.Some?) && (after.Some? ==> after.value >= before.value)
  {
    SumsUnderRaise(avs, avs2, i, v);
    var w := PesosAvaliados(avs);
    if w > 0.0 {
      DivMonotone(NotaPonderada(avs), NotaPonderada(avs2), w);
    }
  }

  lemma MulMonotone(a: real, b: real, w: real)
    requires a <= b && w >= 0.0
    ensures a * w <= b * w
  {
    assert b * w - a * w == (b - a) * w;
  }

  lemma DivMonotone(a: real, b: real, d: real)
    requires a <= b && d > 0.0
    ensures a / d <= b / d
  {
    assert b / d - a / d == (b - a) / d;
  }

  // ---------------------------------------------------------------------------
  // The cases pinned by the unit tests (minimum 10 on a 0-20 scale).
  // ---------------------------------------------------------------------------

  /** 18 on weight 60 plus 40 ungraded: raw need -2, reported as 0, `ja_aprovado`. */
  lemma ExampleAlreadyPassed()
    ensures ComputeNeededScore([CalculateFinalGrade.Item(1, 60.0, Some(18.0)), CalculateFinalGrade.Item(2, 40.0, None)], 10.0, 20.0, false)
            == NeededScoreResult(Some(0.0), JaAprovado)
  {
    TwoItemSums(CalculateFinalGrade.Item(1, 60.0, Some(18.0)), CalculateFinalGrade.Item(2, 40.0, None));
  }

  /** 12 on weight 50 plus 50 ungraded: needs 8, `em_jogo`. */
  lemma ExampleStillContested()
    ensures ComputeNeededScore([CalculateFinalGrade.Item(1, 50.0, Some(12.0)), CalculateFinalGrade.Item(2, 50.0, None)], 10.0, 20.0, false)
            == NeededScoreResult(Some(8.0), EmJogo)
  {
    TwoItemSums(CalculateFinalGrade.Item(1, 50.0, Some(12.0)), CalculateFinalGrade.Item(2, 50.0, None));
  }

  /** 2 on weight 80 plus 20 ungraded: needs 42, unclamped; `impossivel`
      without a retake exam and `precisa_exame` with one. */
  lemma ExampleOutOfReach()
    ensures ComputeNeededScore([CalculateFinalGrade.Item(1, 80.0, Some(2.0)), CalculateFinalGrade.Item(2, 20.0, None)], 10.0, 20.0, false)
            == NeededScoreResult(Some(42.0), Estado.Impossivel)
    ensures ComputeNeededScore([CalculateFinalGrade.Item(1, 80.0, Some(2.0)), CalculateFinalGrade.Item(2, 20.0, None)], 10.0, 20.0, true)
            == NeededScoreResult(Some(42.0), Estado.PrecisaExame)
  {
    TwoItemSums(CalculateFinalGrade.Item(1, 80.0, Some(2.0)), CalculateFinalGrade.Item(2, 20.0, None));
  }

  /** Fully graded 15/12 passes; fully graded 5/4 (average 4.5) is `concluida`. */
  lemma ExampleFullyGraded()
    ensures ComputeNeededScore([CalculateFinalGrade.Item(1, 50.0, Some(15.0)), CalculateFinalGrade.Item(2, 50.0, Some(12.0))], 10.0, 20.0, false).estado
            == JaAprovado
    ensures ComputeNeededScore([CalculateFinalGrade.Item(1, 50.0, Some(5.0)), CalculateFinalGrade.Item(2, 50.0, Some(4.0))], 10.0, 20.0, false).estado
            == Concluida
  {
    TwoItemSums(CalculateFinalGrade.Item(1, 50.0, Some(15.0)), CalculateFinalGrade.Item(2, 50.0, Some(12.0)));
    TwoItemSums(CalculateFinalGrade.Item(1, 50.0, Some(5.0)), CalculateFinalGrade.Item(2, 50.0, Some(4.0)));
  }
}
