/** The six-state pass/fail classifier (src/core/grading/evaluatePassFail.ts). */
module EvaluatePassFail {
  import opened Wrappers
  import opened GradingModels
  import CalculateFinalGrade
  import ComputeNeededScore

  /** Weighted average of the graded assessments, 0 when nothing is graded. */
  function Media(avs: seq<AvaliacaoComponent>): real {
    if PesosAvaliados(avs) > 0.0 then NotaPonderada(avs) / PesosAvaliados(avs) else 0.0
  }

  /** Status of a unit plus its overview with the needed score filled in. */
  function EvaluatePassFail(avs: seq<AvaliacaoComponent>, notaMinima: real, notaMaxima: real, temExameRecurso: bool)
    : (r: UCStatusResult)
    ensures r.overview == CalculateFinalGrade.CalculateGradeOverview(avs, None).(
              notaNecessaria := ComputeNeededScore.ComputeNeededScore(avs, notaMinima, notaMaxima, temExameRecurso).notaNecessaria)
    ensures PesoRestante(avs) <= 0.0 ==>
              (r.status == Aprovado <==> Media(avs) >= notaMinima) &&
              (r.status != Aprovado <==> r.status == Reprovado)
    ensures r.status == Reprovado ==> PesoRestante(avs) <= 0.0
    ensures r.status == Ok ==>
              r.overview.notaNecessaria.Some? && 0.0 < r.overview.notaNecessaria.value <= notaMaxima * OnTrackFactor
    ensures r.status == EmRisco ==>
              r.overview.notaNecessaria.Some? &&
              notaMaxima * OnTrackFactor < r.overview.notaNecessaria.value <= notaMaxima
    ensures r.status == UCStatus.PrecisaExame ==> temExameRecurso
    ensures r.status == UCStatus.Impossivel ==> !temExameRecurso
  {
    var overview := CalculateFinalGrade.CalculateGradeOverview(avs, None);
    var needed := ComputeNeededScore.ComputeNeededScore(avs, notaMinima, notaMaxima, temExameRecurso);
    var fullOverview := overview.(notaNecessaria := needed.notaNecessaria);
    var status :=
      if overview.pesoRestante <= 0.0 then
        var media := if overview.pesosAvaliados > 0.0 then NotaPonderada(avs) / overview.pesosAvaliados else 0.0;
        if media >= notaMinima then Aprovado else Reprovado
      else
        var nn := needed.notaNecessaria.GetOr(0.0);
        if nn <= 0.0 then Aprovado
        else if nn <= notaMaxima * OnTrackFactor then Ok
        else if nn <= notaMaxima then EmRisco
        else if temExameRecurso then UCStatus.PrecisaExame
        else UCStatus.Impossivel;
    UCStatusResult(status, fullOverview)
  }

  /** The `?? 0` default never applies: with weight remaining the needed score is present. */
  lemma NeededDefaultUnreachable(avs: seq<AvaliacaoComponent>, notaMinima: real, notaMaxima: real, temExameRecurso: bool)
    requires CalculateFinalGrade.CalculateGradeOverview(avs, None).pesoRestante > 0.0
    ensures ComputeNeededScore.ComputeNeededScore(avs, notaMinima, notaMaxima, temExameRecurso).notaNecessaria.Some?
  {
  }

  /** The six-way status refines the five-way outcome: `ja_aprovado` is `aprovado`,
      `concluida` is `reprovado`, `em_jogo` splits into `ok`/`em_risco`, and the
      two out-of-reach outcomes keep their names. */
  lemma StatusAgreesWithEstado(avs: seq<AvaliacaoComponent>, notaMinima: real, notaMaxima: real, temExameRecurso: bool)
    ensures var st := EvaluatePassFail(avs, notaMinima, notaMaxima, temExameRecurso).status;
            var e := ComputeNeededScore.ComputeNeededScore(avs, notaMinima, notaMaxima, temExameRecurso).estado;
            (e == JaAprovado <==> st == Aprovado) &&
            (e == Concluida <==> st == Reprovado) &&
            (e == EmJogo <==> st == Ok || st == EmRisco) &&
            (e == Estado.Impossivel <==> st == UCStatus.Impossivel) &&
            (e == Estado.PrecisaExame <==> st == UCStatus.PrecisaExame)
  {
    var nn := ComputeNeededScore.ComputeNeededScore(avs, notaMinima, notaMaxima, temExameRecurso).notaNecessaria;
    if PesoRestante(avs) > 0.0 && nn.value > 0.0 && nn.value <= notaMaxima * OnTrackFactor {
      assert notaMaxima > 0.0;
      assert notaMaxima * OnTrackFactor <= notaMaxima;
    }
  }

  /** With weight remaining, the status is picked by the needed score against the
      literal thresholds 0, 0.7 x notaMaxima and notaMaxima. */
  lemma StatusThresholds(avs: seq<AvaliacaoComponent>, notaMinima: real, notaMaxima: real, temExameRecurso: bool)
    requires PesoRestante(avs) > 0.0
    ensures var r := EvaluatePassFail(avs, notaMinima, notaMaxima, temExameRecurso);
            var nn := r.overview.notaNecessaria.value;
            r.overview.notaNecessaria.Some? &&
            (nn <= 0.0 ==> r.status == Aprovado) &&
            (0.0 < nn <= notaMaxima * OnTrackFactor ==> r.status == Ok) &&
            (0.0 < nn && notaMaxima * OnTrackFactor < nn <= notaMaxima ==> r.status == EmRisco) &&
            (0.0 < nn && notaMaxima < nn ==>
               r.status == (if temExameRecurso then UCStatus.PrecisaExame else UCStatus.Impossivel))
  {
  }

  // ---------------------------------------------------------------------------
  // The cases pinned by the unit tests (minimum 10 on a 0-20 scale).
  // ---------------------------------------------------------------------------

  function Two(p1: real, n1: Option<real>, p2: real, n2: Option<real>): seq<AvaliacaoComponent> {
    [CalculateFinalGrade.Item(1, p1, n1), CalculateFinalGrade.Item(2, p2, n2)]
  }

  /** Fully graded 40/60 with 14/12 (average 12.8) passes; with 6/5 (4.6) fails. */
  lemma ExampleFullyGraded()
    ensures EvaluatePassFail(Two(40.0, Some(14.0), 60.0, Some(12.0)), 10.0, 20.0, false).status == Aprovado
    ensures EvaluatePassFail(Two(40.0, Some(6.0), 60.0, Some(5.0)), 10.0, 20.0, false).status == Reprovado
  {
    TwoItemSums(CalculateFinalGrade.Item(1, 40.0, Some(14.0)), CalculateFinalGrade.Item(2, 60.0, Some(12.0)));
    TwoItemSums(CalculateFinalGrade.Item(1, 40.0, Some(6.0)), CalculateFinalGrade.Item(2, 60.0, Some(5.0)));
  }

  /** Needing 8 (at most 14) is `ok`; needing 15 is `em_risco`. */
  lemma ExampleOnTrackAndAtRisk()
    ensures EvaluatePassFail(Two(50.0, Some(12.0), 50.0, None), 10.0, 20.0, false).status == Ok
    ensures EvaluatePassFail(Two(50.0, Some(5.0), 50.0, None), 10.0, 20.0, false).status == EmRisco
  {
    TwoItemSums(CalculateFinalGrade.Item(1, 50.0, Some(12.0)), CalculateFinalGrade.Item(2, 50.0, None));
    TwoItemSums(CalculateFinalGrade.Item(1, 50.0, Some(5.0)), CalculateFinalGrade.Item(2, 50.0, None));
  }

  /** Needing 42 on a 0-20 scale: `impossivel`, or `precisa_exame` with a retake exam;
      18 on weight 60 already passes. */
  lemma ExampleOutOfReachAndGuaranteed()
    ensures EvaluatePassFail(Two(80.0, Some(2.0), 20.0, None), 10.0, 20.0, false).status == UCStatus.Impossivel
    ensures EvaluatePassFail(Two(80.0, Some(2.0), 20.0, None), 10.0, 20.0, true).status == UCStatus.PrecisaExame
    ensures EvaluatePassFail(Two(60.0, Some(18.0), 40.0, None), 10.0, 20.0, false).status == Aprovado
  {
    TwoItemSums(CalculateFinalGrade.Item(1, 80.0, Some(2.0)), CalculateFinalGrade.Item(2, 20.0, None));
    TwoItemSums(CalculateFinalGrade.Item(1, 60.0, Some(18.0)), CalculateFinalGrade.Item(2, 40.0, None));
  }
}
