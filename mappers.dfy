/** Row-to-record mappers of the database layer (src/db/utils/mappers.ts), with the
    column encodings the repositories write, so that reading back what was written
    can be stated. Date parsing and `JSON.parse`/`JSON.stringify` are parameters. */
module Mappers {
  import opened Wrappers
  import opened DbTypes
  import opened Converters
  import TipoUtils

  /** Ordering of the statuses along time: future, current, past. */
  function StatusRank(s: SemesterStatus): nat {
    match s
    case Futuro => 0
    case Atual => 1
    case Passado => 2
  }

  /** `mapSemesterStatus`. `now` is the clock reading and `parseDate` stands for
      `new Date(...)`, `None` being an Invalid Date; every comparison with an Invalid
      Date is false, so such a bound never moves the semester out of `atual`. */
  function MapSemesterStatus(startDate: string, endDate: string, now: int, parseDate: string -> Option<int>): (r: SemesterStatus)
    ensures r == Futuro <==> parseDate(startDate).Some? && now < parseDate(startDate).value
    ensures r == Passado <==> !(parseDate(startDate).Some? && now < parseDate(startDate).value)
                              && parseDate(endDate).Some? && now > parseDate(endDate).value
  {
    var start := parseDate(startDate);
    var end := parseDate(endDate);
    if start.Some? && now < start.value then Futuro
    else if end.Some? && now > end.value then Passado
    else Atual
  }

  /** With both dates valid and in order, a semester is current exactly on the closed
      interval between them. */
  lemma CurrentOnClosedInterval(startDate: string, endDate: string, now: int, parseDate: string -> Option<int>)
    requires parseDate(startDate).Some? && parseDate(endDate).Some?
    ensures MapSemesterStatus(startDate, endDate, now, parseDate) == Atual
            <==> parseDate(startDate).value <= now <= parseDate(endDate).value
  {
  }

  /** A semester only moves forward: future, then current, then past, as the clock
      advances, whatever the stored dates are. */
  lemma StatusMonotoneInTime(startDate: string, endDate: string, now1: int, now2: int, parseDate: string -> Option<int>)
    requires now1 <= now2
    ensures StatusRank(MapSemesterStatus(startDate, endDate, now1, parseDate))
            <= StatusRank(MapSemesterStatus(startDate, endDate, now2, parseDate))
  {
  }

  /** A row of the `uc` table as the query returns it. */
  datatype UcRow = UcRow(
    id: int,
    semesterId: int,
    name: string,
    icon: Option<string>,
    ects: real,
    professores: Option<string>,
    notes: Option<string>,
    escalaNatas: Option<string>,
    notaMinimaAprovacao: Option<real>,
    temExameRecurso: real,
    pesoMinProva: Option<real>,
    linkUc: Option<string>)

  /** `mapUC`. `parse` stands for `JSON.parse` on the lecturers column. */
  function MapUC(row: UcRow, parse: string -> Option<seq<string>>): (r: UCRecord)
    ensures r.icon == (if row.icon.Some? then row.icon.value else "functions")
    ensures r.temExameRecurso <==> row.temExameRecurso == 1.0
    ensures row.professores.None? || row.professores == Some("") ==> r.professores == []
    ensures row.professores.Some? && row.professores.value != "" ==>
      r.professores == parse(row.professores.value).GetOr([])
    ensures r.id == row.id && r.semesterId == row.semesterId && r.name == row.name && r.ects == row.ects
    ensures r.notes == row.notes && r.escalaNatas == row.escalaNatas && r.linkUc == row.linkUc
    ensures r.notaMinimaAprovacao == row.notaMinimaAprovacao && r.pesoMinProva == row.pesoMinProva
  {
    UCRecord(
      row.id, row.semesterId, row.name,
      row.icon.GetOr("functions"),
      row.ects,
      ParseJson(row.professores, [], parse),
      row.notes, row.escalaNatas, row.notaMinimaAprovacao,
      ToBool(Some(row.temExameRecurso)),
      row.pesoMinProva, row.linkUc)
  }

  /** A list column as the repositories write it: an empty list is stored as `NULL`,
      anything else as its JSON text. */
  function ListColumn<T>(xs: seq<T>, stringify: seq<T> -> string): (c: Option<string>)
    ensures c.None? <==> |xs| == 0
  {
    if |xs| > 0 then Some(stringify(xs)) else None
  }

  /** Writing a list column and reading it back with `parseJson(…, [])` gives the list
      again, the empty list included, provided JSON text is never empty and parses back. */
  lemma ListColumnRoundTrip<T>(xs: seq<T>, stringify: seq<T> -> string, parse: string -> Option<seq<T>>)
    requires |xs| > 0 ==> stringify(xs) != "" && parse(stringify(xs)) == Some(xs)
    ensures ParseJson(ListColumn(xs, stringify), [], parse) == xs
  {
  }

  /** The `uc` row the repository writes for a record. */
  function UcToRow(uc: UCRecord, stringify: seq<string> -> string): (row: UcRow)
    ensures row.icon == Some(uc.icon) && row.professores == ListColumn(uc.professores, stringify)
    ensures row.temExameRecurso == FromBool(uc.temExameRecurso)
  {
    UcRow(
      uc.id, uc.semesterId, uc.name, Some(uc.icon), uc.ects,
      ListColumn(uc.professores, stringify),
      uc.notes, uc.escalaNatas, uc.notaMinimaAprovacao,
      FromBool(uc.temExameRecurso),
      uc.pesoMinProva, uc.linkUc)
  }

  /** Reading back a written `uc` row gives the record again. */
  lemma UcRoundTrip(uc: UCRecord, stringify: seq<string> -> string, parse: string -> Option<seq<string>>)
    requires |uc.professores| > 0 ==> stringify(uc.professores) != "" && parse(stringify(uc.professores)) == Some(uc.professores)
    ensures MapUC(UcToRow(uc, stringify), parse) == uc
  {
    ListColumnRoundTrip(uc.professores, stringify, parse);
    BoolRoundTrip(uc.temExameRecurso, None);
  }

  /** A row of the `avaliacao` table as the query returns it. */
  datatype AvaliacaoRow = AvaliacaoRow(
    id: int,
    ucId: int,
    nome: string,
    tipo: string,
    dataHora: string,
    peso: real,
    notaObtida: Option<real>,
    notaMaxima: Option<real>,
    lembreteAtivo: real,
    lembreteAntecedencia: Option<string>,
    anexoUrl: Option<string>,
    notas: Option<string>)

  /** `mapAvaliacao`. `parse` stands for `JSON.parse` on the reminders column; its
      `Some(None)` is a JSON value that is falsy (such as `null`), which `|| null`
      turns into a missing list. */
  function MapAvaliacao(row: AvaliacaoRow, parse: string -> Option<Option<seq<real>>>): (r: AvaliacaoRecord)
    ensures r.lembreteAtivo <==> row.lembreteAtivo == 1.0
    ensures r.lembreteAntecedencia.None? ==> row.lembreteAntecedencia.Some? && row.lembreteAntecedencia.value != ""
                                             && parse(row.lembreteAntecedencia.value) == Some(None)
    ensures row.lembreteAntecedencia.None? || row.lembreteAntecedencia == Some("") ==> r.lembreteAntecedencia == Some([])
    ensures row.lembreteAntecedencia.Some? && row.lembreteAntecedencia.value != "" ==>
      match parse(row.lembreteAntecedencia.value)
      case None => r.lembreteAntecedencia == Some([])
      case Some(None) => r.lembreteAntecedencia == None
      case Some(Some(xs)) => r.lembreteAntecedencia == Some(xs)
    ensures r.peso == row.peso && r.notaObtida == row.notaObtida && r.notaMaxima == row.notaMaxima
    ensures r.id == row.id && r.ucId == row.ucId && r.nome == row.nome && r.tipo == row.tipo && r.dataHora == row.dataHora
    ensures r.anexoUrl == row.anexoUrl && r.notas == row.notas
  {
    var reminders := ParseJson(row.lembreteAntecedencia, Some([]), parse);
    AvaliacaoRecord(
      row.id, row.ucId, row.nome, row.tipo, row.dataHora,
      row.peso, row.notaObtida, row.notaMaxima,
      ToBool(Some(row.lembreteAtivo)),
      if reminders.Some? then reminders else None,
      row.anexoUrl, row.notas)
  }

  /** The `avaliacao` row the repository writes for a record; a missing reminder list
      is written like an empty one. */
  function AvaliacaoToRow(a: AvaliacaoRecord, stringify: seq<real> -> string): (row: AvaliacaoRow)
    ensures row.lembreteAtivo == FromBool(a.lembreteAtivo)
    ensures row.lembreteAntecedencia == ListColumn(a.lembreteAntecedencia.GetOr([]), stringify)
  {
    AvaliacaoRow(
      a.id, a.ucId, a.nome, a.tipo, a.dataHora, a.peso, a.notaObtida, a.notaMaxima,
      FromBool(a.lembreteAtivo),
      ListColumn(a.lembreteAntecedencia.GetOr([]), stringify),
      a.anexoUrl, a.notas)
  }

  /** Reading back a written `avaliacao` row gives the record again, except that a
      missing reminder list comes back as the empty list: the `|| null` never fires for
      what the repositories write. */
  lemma AvaliacaoRoundTrip(a: AvaliacaoRecord, stringify: seq<real> -> string, parse: string -> Option<Option<seq<real>>>)
    requires var xs := a.lembreteAntecedencia.GetOr([]);
             |xs| > 0 ==> stringify(xs) != "" && parse(stringify(xs)) == Some(Some(xs))
    ensures MapAvaliacao(AvaliacaoToRow(a, stringify), parse)
            == a.(lembreteAntecedencia := Some(a.lembreteAntecedencia.GetOr([])))
  {
    BoolRoundTrip(a.lembreteAtivo, None);
  }

  /** A row of the `event` table as the query returns it. */
  datatype EventRow = EventRow(
    id: int,
    semesterId: Option<int>,
    ucId: Option<int>,
    title: string,
    dateTime: string,
    priority: string,
    completed: real,
    notes: Option<string>,
    tipo: Option<string>)

  /** `mapEvent`: a `NULL` kind reads as `evento`. */
  function MapEvent(row: EventRow): (r: EventRecord)
    ensures r.completed <==> row.completed == 1.0
    ensures row.tipo.Some? ==> r.tipo == row.tipo.value
    ensures row.tipo.None? ==> r.tipo == "evento"
    ensures r.id == row.id && r.semesterId == row.semesterId && r.ucId == row.ucId && r.title == row.title
    ensures r.dateTime == row.dateTime && r.priority == row.priority && r.notes == row.notes
  {
    EventRecord(
      row.id, row.semesterId, row.ucId, row.title, row.dateTime, row.priority,
      ToBool(Some(row.completed)), row.notes, row.tipo.GetOr("evento"))
  }

  /** The `event` row `createManualEvent` inserts for a record: the completion column
      is always written as 0. */
  function EventToRow(e: EventRecord): (row: EventRow)
    ensures row.completed == 0.0 && row.tipo == Some(e.tipo)
  {
    EventRow(e.id, e.semesterId, e.ucId, e.title, e.dateTime, e.priority, 0.0, e.notes, Some(e.tipo))
  }

  /** `toggleEventCompleted`: only the completion column changes. */
  function SetCompletedRow(row: EventRow, completed: bool): (r: EventRow)
    ensures r.completed == FromBool(completed)
    ensures r.(completed := row.completed) == row
  {
    row.(completed := FromBool(completed))
  }

  /** Reading back an inserted `event` row gives the record again, not completed. */
  lemma EventRoundTrip(e: EventRecord)
    ensures MapEvent(EventToRow(e)) == e.(completed := false)
  {
    assert !ToBool(Some(0.0));
  }

  /** Inserting a record and then setting its completion reads back as the record. */
  lemma EventCompletedRoundTrip(e: EventRecord)
    ensures MapEvent(SetCompletedRow(EventToRow(e), e.completed)) == e
  {
    BoolRoundTrip(e.completed, None);
  }

  /** The two defaults for a missing kind disagree: a `NULL` column read by `mapEvent`
      becomes an event, while `toEventTipo` of a missing kind gives an assessment. */
  lemma NullKindDefaults(row: EventRow)
    requires row.tipo.None?
    ensures TipoUtils.ToEventTipo(Some(MapEvent(row).tipo)) == Evento
    ensures TipoUtils.ToEventTipo(row.tipo) == Avaliacao
  {
  }
}
