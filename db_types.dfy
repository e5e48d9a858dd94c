/** Record and enumeration types of the local database layer (src/db/types.ts). */
module DbTypes {
  import opened Wrappers

  datatype SemesterStatus = Atual | Passado | Futuro

  datatype EventPriority = Low | Medium | High

  /** The three event kinds; the calendar domain uses the same three values. */
  datatype EventTipo = Avaliacao | Atividade | Evento

  /** The string each event kind is stored and compared as. */
  function TipoName(t: EventTipo): string {
    match t
    case Avaliacao => "avaliacao"
    case Atividade => "atividade"
    case Evento => "evento"
  }

  datatype SemesterRecord = SemesterRecord(
    id: int,
    cursoId: Option<int>,
    title: string,
    startDate: string,
    endDate: string,
    notes: Option<string>,
    metaMedia: Option<real>,
    metaEcts: Option<real>)

  datatype UCRecord = UCRecord(
    id: int,
    semesterId: int,
    name: string,
    icon: string,
    ects: real,
    professores: seq<string>,
    notes: Option<string>,
    escalaNatas: Option<string>,
    notaMinimaAprovacao: Option<real>,
    temExameRecurso: bool,
    pesoMinProva: Option<real>,
    linkUc: Option<string>)

  /** `tipo` keeps the raw column text: the source casts it without checking. */
  datatype AvaliacaoRecord = AvaliacaoRecord(
    id: int,
    ucId: int,
    nome: string,
    tipo: string,
    dataHora: string,
    peso: real,
    notaObtida: Option<real>,
    notaMaxima: Option<real>,
    lembreteAtivo: bool,
    lembreteAntecedencia: Option<seq<real>>,
    anexoUrl: Option<string>,
    notas: Option<string>)

  /** `priority` and `tipo` keep the raw column text: the source casts them without checking. */
  datatype EventRecord = EventRecord(
    id: int,
    semesterId: Option<int>,
    ucId: Option<int>,
    title: string,
    dateTime: string,
    priority: string,
    completed: bool,
    notes: Option<string>,
    tipo: string)
}
