/** The overview calculator (src/core/grading/calculateFinalGrade.ts). */
module CalculateFinalGrade {
  import opened Wrappers
  import opened GradingModels

  /** Overview of a unit: graded weight, weighted score, partial average,
      remaining weight (clamped at 0) and a projection that either uses the
      hypothetical score on the remaining weight or counts that weight as 0. */
  function CalculateGradeOverview(avs: seq<AvaliacaoComponent>, notaHipotetica: Option<real>): (r: UCGradeOverview)
    ensures r.pesoTotal == SumPeso(avs)
    ensures r.pesosAvaliados == PesosAvaliados(avs)
    ensures r.mediaParcial.Some? <==> r.pesosAvaliados > 0.0
    ensures r.mediaParcial.Some? ==> r.mediaParcial.value * r.pesosAvaliados == NotaPonderada(avs)
    ensures r.pesoRestante >= 0.0
    ensures r.pesosAvaliados <= NominalTotalWeight ==> r.pesosAvaliados + r.pesoRestante == NominalTotalWeight
    ensures r.pesosAvaliados >= NominalTotalWeight ==> r.pesoRestante == 0.0
    ensures notaHipotetica.Some? && r.pesoRestante > 0.0 ==>
              r.projecao.Some? &&
              r.projecao.value * NominalTotalWeight == NotaPonderada(avs) + notaHipotetica.value * r.pesoRestante
    ensures !(notaHipotetica.Some? && r.pesoRestante > 0.0) ==>
              (r.projecao.Some? <==> r.pesosAvaliados > 0.0) &&
              (r.projecao.Some? ==> r.projecao.value * NominalTotalWeight == NotaPonderada(avs))
    ensures r.notaNecessaria == None
  {
    var pesoTotal := SumPeso(avs);
    var pesosAvaliados := PesosAvaliados(avs);
    var notaPonderada := NotaPonderada(avs);
    var mediaParcial := if pesosAvaliados > 0.0 then Some(notaPonderada / pesosAvaliados) else None;
    var pesoRestante := PesoRestante(avs);
    var projecao :=
      if notaHipotetica.Some? && pesoRestante > 0.0 then
        Some((notaPonderada + notaHipotetica.value * pesoRestante) / NominalTotalWeight)
      else if pesosAvaliados > 0.0 then
        Some(notaPonderada / NominalTotalWeight)
      else
        None;
    UCGradeOverview(mediaParcial, projecao, None, pesosAvaliados, pesoRestante, pesoTotal)
  }

  /** With non-negative weights and every graded score in [0, notaMaxima], the
      weighted score sum lies between 0 and notaMaxima times the graded weight. */
  lemma NotaPonderadaBounds(avs: seq<AvaliacaoComponent>, notaMaxima: real)
    requires forall i :: 0 <= i < |avs| ==> avs[i].peso >= 0.0
    requires forall i :: 0 <= i < |avs| && IsGraded(avs[i]) ==> 0.0 <= avs[i].notaObtida.value <= notaMaxima
    ensures 0.0 <= NotaPonderada(avs) <= notaMaxima * PesosAvaliados(avs)
    ensures PesosAvaliados(avs) >= 0.0
  {
    GradedSumsMatchMasked(avs);
    MaskedBounds(avs, notaMaxima);
  }

  /** The same bounds on the reference sums, by induction on the list. */
  lemma {:induction false} MaskedBounds(avs: seq<AvaliacaoComponent>, notaMaxima: real)
    requires forall i :: 0 <= i < |avs| ==> avs[i].peso >= 0.0
    requires forall i :: 0 <= i < |avs| && IsGraded(avs[i]) ==> 0.0 <= avs[i].notaObtida.value <= notaMaxima
    ensures 0.0 <= MaskedPonderada(avs) <= notaMaxima * MaskedPeso(avs)
    ensures MaskedPeso(avs) >= 0.0
  {
    if |avs| > 0 {
      var rest := avs[1..];
      MaskedBounds(rest, notaMaxima);
      var p := MaskedPeso(rest);
      var n := MaskedPonderada(rest);
      if IsGraded(avs[0]) {
        var w := avs[0].peso;
        ProductWithin(avs[0].notaObtida.value, w, notaMaxima);
        assert MaskedPeso(avs) == p + w;
        assert MaskedPonderada(avs) == n + avs[0].notaObtida.value * w;
        assert notaMaxima * (p + w) == notaMaxima * p + notaMaxima * w;
      } else {
        assert MaskedPeso(avs) == p && MaskedPonderada(avs) == n;
      }
    }
  }

  /** A non-null partial average of scores in [0, notaMaxima] with non-negative
      weights lies in [0, notaMaxima]. */
  lemma MediaParcialWithinScale(avs: seq<AvaliacaoComponent>, notaMaxima: real)
    requires forall i :: 0 <= i < |avs| ==> avs[i].peso >= 0.0
    requires forall i :: 0 <= i < |avs| && IsGraded(avs[i]) ==> 0.0 <= avs[i].notaObtida.value <= notaMaxima
    ensures var m := CalculateGradeOverview(avs, None).mediaParcial;
            m.Some? ==> 0.0 <= m.value <= notaMaxima
  {
    NotaPonderadaBounds(avs, notaMaxima);
    var r := CalculateGradeOverview(avs, None);
    if r.mediaParcial.Some? {
      QuotientWithin(NotaPonderada(avs), r.pesosAvaliados, r.mediaParcial.value, notaMaxima);
    }
  }

  lemma ProductWithin(s: real, w: real, hi: real)
    requires w >= 0.0 && 0.0 <= s <= hi
    ensures 0.0 <= s * w <= hi * w
  {
    assert hi * w - s * w == (hi - s) * w;
  }

  lemma QuotientWithin(total: real, w: real, m: real, hi: real)
    requires w > 0.0 && m * w == total && 0.0 <= total <= hi * w
    ensures 0.0 <= m <= hi
  {
    assert (hi - m) * w == hi * w - total;
  }

  /** With everything ungraded nothing counts: no average, no projection, 100 remaining. */
  lemma NothingGradedOverview(avs: seq<AvaliacaoComponent>)
    requires forall i :: 0 <= i < |avs| ==> !IsGraded(avs[i])
    ensures var r := CalculateGradeOverview(avs, None);
            r.pesosAvaliados == 0.0 && r.mediaParcial == None && r.projecao == None &&
            r.pesoRestante == NominalTotalWeight
  {
    GradedSumsMatchMasked(avs);
    MaskedPesoOfUngraded(avs);
  }

  lemma {:induction false} MaskedPesoOfUngraded(avs: seq<AvaliacaoComponent>)
    requires forall i :: 0 <= i < |avs| ==> !IsGraded(avs[i])
    ensures MaskedPeso(avs) == 0.0
  {
    if |avs| > 0 {
      MaskedPesoOfUngraded(avs[1..]);
    }
  }

  /** Test-style factory: an assessment with the given weight and score. */
  function Item(id: int, peso: real, nota: Option<real>): AvaliacaoComponent {
    AvaliacaoComponent(id, 1, "Teste", Prova, "2025-01-01T10:00:00.000Z", peso, nota, None)
  }

  /** Weights 40/60 with scores 16/12: average 13.6, nothing remaining. */
  lemma ExampleFullyGraded()
    ensures var r := CalculateGradeOverview([Item(1, 40.0, Some(16.0)), Item(2, 60.0, Some(12.0))], None);
            r.mediaParcial == Some(13.6) && r.pesosAvaliados == 100.0 && r.pesoRestante == 0.0 && r.pesoTotal == 100.0
  {
    var avs := [Item(1, 40.0, Some(16.0)), Item(2, 60.0, Some(12.0))];
    GradedSumsCons(avs);
    GradedSumsCons(avs[1..]);
    assert SumPeso(avs) == SumPeso(avs[..1]) + 60.0;
  }

  /** Two ungraded halves: no average, 100 remaining. */
  lemma ExampleNothingGraded()
    ensures var r := CalculateGradeOverview([Item(1, 50.0, None), Item(2, 50.0, None)], None);
            r.mediaParcial == None && r.pesosAvaliados == 0.0 && r.pesoRestante == 100.0
  {
    NothingGradedOverview([Item(1, 50.0, None), Item(2, 50.0, None)]);
  }

  /** 16 on weight 50 with hypothetical 12 on the other 50 projects 14. */
  lemma ExampleProjectionWithHypothetical()
    ensures CalculateGradeOverview([Item(1, 50.0, Some(16.0)), Item(2, 50.0, None)], Some(12.0)).projecao == Some(14.0)
  {
    var avs := [Item(1, 50.0, Some(16.0)), Item(2, 50.0, None)];
    GradedSumsCons(avs);
    GradedSumsCons(avs[1..]);
  }

  /** 18 on weight 40 with nothing hypothetical projects 7.2. */
  lemma ExampleProjectionWithoutHypothetical()
    ensures CalculateGradeOverview([Item(1, 40.0, Some(18.0)), Item(2, 60.0, None)], None).projecao == Some(7.2)
  {
    var avs := [Item(1, 40.0, Some(18.0)), Item(2, 60.0, None)];
    GradedSumsCons(avs);
    GradedSumsCons(avs[1..]);
  }
}
