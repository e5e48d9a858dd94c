/** The records the grade-evaluation engine consumes and produces (src/core/models.ts). */
module GradingModels {
  import opened Wrappers

  /** Nominal total weight of a curricular unit: the formulas take the weights to add up to 100. */
  const NominalTotalWeight: real := 100.0

  /** Fraction of the maximum grade below which a needed score is still comfortable ('ok'). */
  const OnTrackFactor: real := 0.7

  datatype AvaliacaoTipo =
    | Avaliacao | Atividade | Evento | Prova | Trabalho
    | Quiz | Projeto | Participacao | Exame | Outro

  /** The six states of a curricular unit shown to the student. */
  datatype UCStatus = Aprovado | Reprovado | Ok | EmRisco | Impossivel | PrecisaExame

  /** The five coarser outcomes of the needed-score computation. */
  datatype Estado = JaAprovado | EmJogo | Impossivel | PrecisaExame | Concluida

  /** One weighted assessment of a unit. `notaObtida == None` means "not graded yet";
      `notaMaxima` is carried for display and never read by the engine. */
  datatype AvaliacaoComponent = AvaliacaoComponent(
    id: int,
    ucId: int,
    nome: string,
    tipo: AvaliacaoTipo,
    dataHora: string,
    peso: real,
    notaObtida: Option<real>,
    notaMaxima: Option<real>)

  datatype UCGradeOverview = UCGradeOverview(
    mediaParcial: Option<real>,
    projecao: Option<real>,
    notaNecessaria: Option<real>,
    pesosAvaliados: real,
    pesoRestante: real,
    pesoTotal: real)

  datatype UCStatusResult = UCStatusResult(status: UCStatus, overview: UCGradeOverview)

  datatype NeededScoreResult = NeededScoreResult(notaNecessaria: Option<real>, estado: Estado)

  predicate IsGraded(a: AvaliacaoComponent) {
    a.notaObtida.Some?
  }

  /** `avaliacoes.filter((a) => a.notaObtida !== null)` */
  function Avaliadas(avs: seq<AvaliacaoComponent>): seq<AvaliacaoComponent> {
    if |avs| == 0 then []
    else Avaliadas(avs[..|avs| - 1]) + (if IsGraded(avs[|avs| - 1]) then [avs[|avs| - 1]] else [])
  }

  /** `reduce((acc, a) => acc + a.peso, 0)` */
  function SumPeso(avs: seq<AvaliacaoComponent>): real {
    if |avs| == 0 then 0.0 else SumPeso(avs[..|avs| - 1]) + avs[|avs| - 1].peso
  }

  /** `reduce((acc, a) => acc + (a.notaObtida ?? 0) * a.peso, 0)` */
  function SumPonderada(avs: seq<AvaliacaoComponent>): real {
    if |avs| == 0 then 0.0
    else SumPonderada(avs[..|avs| - 1]) + avs[|avs| - 1].notaObtida.GetOr(0.0) * avs[|avs| - 1].peso
  }

  /** Weight of the graded assessments (calculateFinalGrade.ts:22, computeNeededScore.ts:18). */
  function PesosAvaliados(avs: seq<AvaliacaoComponent>): real {
    SumPeso(Avaliadas(avs))
  }

  /** Weighted score sum of the graded assessments (calculateFinalGrade.ts:23, computeNeededScore.ts:19). */
  function NotaPonderada(avs: seq<AvaliacaoComponent>): real {
    SumPonderada(Avaliadas(avs))
  }

  /** `Math.max(0, 100 - pesosAvaliados)` */
  function PesoRestante(avs: seq<AvaliacaoComponent>): real {
    var rest := NominalTotalWeight - PesosAvaliados(avs);
    if 0.0 > rest then 0.0 else rest
  }

  // ---------------------------------------------------------------------------
  // Reference definitions: the same sums written without the filter, each
  // ungraded assessment contributing 0.
  // ---------------------------------------------------------------------------

  function MaskedPeso(avs: seq<AvaliacaoComponent>): real {
    if |avs| == 0 then 0.0
    else MaskedPeso(avs[1..]) + (if IsGraded(avs[0]) then avs[0].peso else 0.0)
  }

  function MaskedPonderada(avs: seq<AvaliacaoComponent>): real {
    if |avs| == 0 then 0.0
    else MaskedPonderada(avs[1..]) + (if IsGraded(avs[0]) then avs[0].notaObtida.value * avs[0].peso else 0.0)
  }

  function UngradedPeso(avs: seq<AvaliacaoComponent>): real {
    if |avs| == 0 then 0.0
    else UngradedPeso(avs[1..]) + (if IsGraded(avs[0]) then 0.0 else avs[0].peso)
  }

  lemma {:induction false} AvaliadasAppend(xs: seq<AvaliacaoComponent>, ys: seq<AvaliacaoComponent>)
    ensures Avaliadas(xs + ys) == Avaliadas(xs) + Avaliadas(ys)
    decreases |ys|
  {
    if |ys| == 0 {
      assert xs + ys == xs;
    } else {
      var init := ys[..|ys| - 1];
      assert (xs + ys)[..|xs + ys| - 1] == xs + init;
      AvaliadasAppend(xs, init);
    }
  }

  lemma {:induction false} SumPesoAppend(xs: seq<AvaliacaoComponent>, ys: seq<AvaliacaoComponent>)
    ensures SumPeso(xs + ys) == SumPeso(xs) + SumPeso(ys)
    decreases |ys|
  {
    if |ys| == 0 {
      assert xs + ys == xs;
    } else {
      assert (xs + ys)[..|xs + ys| - 1] == xs + ys[..|ys| - 1];
      SumPesoAppend(xs, ys[..|ys| - 1]);
    }
  }

  lemma {:induction false} SumPonderadaAppend(xs: seq<AvaliacaoComponent>, ys: seq<AvaliacaoComponent>)
    ensures SumPonderada(xs + ys) == SumPonderada(xs) + SumPonderada(ys)
    decreases |ys|
  {
    if |ys| == 0 {
      assert xs + ys == xs;
    } else {
      assert (xs + ys)[..|xs + ys| - 1] == xs + ys[..|ys| - 1];
      SumPonderadaAppend(xs, ys[..|ys| - 1]);
    }
  }

  /** Splitting off the first assessment: the graded sums are the first item's
      contribution (0 when it is ungraded) plus the sums over the rest. */
  lemma {:induction false} GradedSumsCons(avs: seq<AvaliacaoComponent>)
    requires |avs| > 0
    ensures PesosAvaliados(avs) == (if IsGraded(avs[0]) then avs[0].peso else 0.0) + PesosAvaliados(avs[1..])
    ensures NotaPonderada(avs) == (if IsGraded(avs[0]) then avs[0].notaObtida.value * avs[0].peso else 0.0)
                                  + NotaPonderada(avs[1..])
  {
    assert avs == [avs[0]] + avs[1..];
    AvaliadasAppend([avs[0]], avs[1..]);
    assert Avaliadas([avs[0]]) == Avaliadas([]) + (if IsGraded(avs[0]) then [avs[0]] else []);
    SumPesoAppend(Avaliadas([avs[0]]), Avaliadas(avs[1..]));
    SumPonderadaAppend(Avaliadas([avs[0]]), Avaliadas(avs[1..]));
    if IsGraded(avs[0]) {
      assert SumPeso([avs[0]]) == SumPeso([]) + avs[0].peso;
      assert SumPonderada([avs[0]]) == SumPonderada([]) + avs[0].notaObtida.value * avs[0].peso;
    }
  }

  /** The filtered sums equal the reference sums in which every ungraded
      assessment adds 0 to both the graded weight and the weighted score. */
  lemma {:induction false} GradedSumsMatchMasked(avs: seq<AvaliacaoComponent>)
    ensures PesosAvaliados(avs) == MaskedPeso(avs)
    ensures NotaPonderada(avs) == MaskedPonderada(avs)
  {
    if |avs| > 0 {
      GradedSumsCons(avs);
      GradedSumsMatchMasked(avs[1..]);
    }
  }

  /** Total weight is the graded weight plus the weight of the ungraded assessments:
      `pesoTotal` sums every assessment, graded or not. */
  lemma {:induction false} PesoTotalSplits(avs: seq<AvaliacaoComponent>)
    ensures SumPeso(avs) == PesosAvaliados(avs) + UngradedPeso(avs)
  {
    if |avs| > 0 {
      GradedSumsCons(avs);
      PesoTotalSplits(avs[1..]);
      assert avs == [avs[0]] + avs[1..];
      SumPesoAppend([avs[0]], avs[1..]);
      assert SumPeso([avs[0]]) == SumPeso([]) + avs[0].peso;
    }
  }

  /** Inserting an ungraded assessment anywhere changes neither graded sum. */
  lemma UngradedAddsNothing(xs: seq<AvaliacaoComponent>, a: AvaliacaoComponent, ys: seq<AvaliacaoComponent>)
    requires !IsGraded(a)
    ensures PesosAvaliados(xs + [a] + ys) == PesosAvaliados(xs + ys)
    ensures NotaPonderada(xs + [a] + ys) == NotaPonderada(xs + ys)
  {
    AvaliadasAppend(xs + [a], ys);
    AvaliadasAppend(xs, [a]);
    AvaliadasAppend(xs, ys);
    assert [a][..0] == [];
    assert Avaliadas([a]) == [];
    assert Avaliadas(xs + [a]) == Avaliadas(xs);
  }

  /** Appending one assessment adds its contribution to each sum. */
  lemma GradedSumsSnoc(xs: seq<AvaliacaoComponent>, b: AvaliacaoComponent)
    ensures PesosAvaliados(xs + [b]) == PesosAvaliados(xs) + (if IsGraded(b) then b.peso else 0.0)
    ensures NotaPonderada(xs + [b]) == NotaPonderada(xs) + (if IsGraded(b) then b.notaObtida.value * b.peso else 0.0)
    ensures SumPeso(xs + [b]) == SumPeso(xs) + b.peso
  {
    var s := xs + [b];
    assert s[..|s| - 1] == xs && s[|s| - 1] == b;
    var g := if IsGraded(b) then [b] else [];
    assert Avaliadas(s) == Avaliadas(xs) + g;
    SumPesoAppend(Avaliadas(xs), g);
    SumPonderadaAppend(Avaliadas(xs), g);
    if IsGraded(b) {
      assert [b][..0] == [];
      assert SumPeso(g) == b.peso;
      assert SumPonderada(g) == b.notaObtida.value * b.peso;
    } else {
      assert g == [];
    }
  }

  /** The graded sums of a two-assessment unit, as the tests build them. */
  lemma TwoItemSums(a: AvaliacaoComponent, b: AvaliacaoComponent)
    ensures PesosAvaliados([a, b]) == (if IsGraded(a) then a.peso else 0.0) + (if IsGraded(b) then b.peso else 0.0)
    ensures NotaPonderada([a, b]) == (if IsGraded(a) then a.notaObtida.value * a.peso else 0.0)
                                     + (if IsGraded(b) then b.notaObtida.value * b.peso else 0.0)
    ensures SumPeso([a, b]) == a.peso + b.peso
  {
    assert [a] == [] + [a];
    assert [a, b] == [a] + [b];
    GradedSumsSnoc([], a);
    GradedSumsSnoc([a], b);
  }
}
