/** The calendar application layer: the commands, the repository port with the
    in-memory implementation used by the integration flow, and the create and
    update use cases. */
module CalendarUseCases {
  import opened Wrappers
  import opened JsText
  import opened DbTypes
  import opened CalendarDomain

  /** A JavaScript number as far as `Number.isFinite` can tell. */
  datatype JsNumber = Finite(value: real) | NaN | PosInfinity | NegInfinity

  /** What the repository stores: an event's properties without its id. */
  datatype PersistCalendarEventInput = PersistCalendarEventInput(
    title: string,
    dateTimeISO: string,
    ucId: Option<real>,
    semesterId: Option<real>,
    tipo: EventTipo,
    priority: EventPriority,
    notes: Option<string>)

  datatype SaveCalendarEventCommand = SaveCalendarEventCommand(
    title: string,
    dateTime: string,
    ucId: Option<real>,
    semesterId: Option<real>,
    tipo: Option<EventTipo>,
    priority: Option<EventPriority>,
    notes: Option<string>)

  datatype UpdateCalendarEventCommand = UpdateCalendarEventCommand(
    eventId: JsNumber,
    fields: SaveCalendarEventCommand)

  /** Why a repository call throws. */
  datatype RepositoryError = WriteFailed | EventMissing

  /** The steps the two use cases share: validate the title, then the date, build
      the event with the defaults, persist it and drop its id. */
  function PersistenceInput(c: SaveCalendarEventCommand, id: Option<real>, parseIso: string -> Option<string>)
    : (r: Result<PersistCalendarEventInput, CalendarDomainErrorCode>)
    ensures CreateEventTitle(c.title).Failure? ==> r == Failure(CreateEventTitle(c.title).error)
    ensures CreateEventTitle(c.title).Success? && CreateEventDateTime(c.dateTime, parseIso).Failure?
      ==> r == Failure(EventDateTimeInvalid)
    ensures r.Success? <==> CreateEventTitle(c.title).Success? && CreateEventDateTime(c.dateTime, parseIso).Success?
    ensures r.Success? ==>
      && r.value.title == Trim(c.title)
      && Some(r.value.dateTimeISO) == parseIso(c.dateTime)
      && r.value.ucId == c.ucId
      && r.value.semesterId == c.semesterId
      && r.value.tipo == c.tipo.GetOr(Evento)
      && r.value.priority == c.priority.GetOr(Medium)
      && (r.value.notes.None? <==> c.notes.None? || AllWhitespace(c.notes.value))
      && (r.value.notes.Some? ==> r.value.notes.value == Trim(c.notes.value))
  {
    match CreateEventTitle(c.title)
    case Failure(e) => Failure(e)
    case Success(title) =>
      match CreateEventDateTime(c.dateTime, parseIso)
      case Failure(e) => Failure(e)
      case Success(dateTime) =>
        var event := CalendarEvent(CalendarEventProps(
          id, title.value, dateTime.iso, c.ucId, c.semesterId,
          c.tipo.GetOr(Evento), c.priority.GetOr(Medium), NormalizeNotes(c.notes)));
        var p := ToPersistence(event);
        NormalizeNotesIdempotent(c.notes);
        Success(PersistCalendarEventInput(p.title, p.dateTimeISO, p.ucId, p.semesterId, p.tipo, p.priority, p.notes))
  }

  /** The checks of the update use case, in its order: the id first, then the fields. */
  function ValidateUpdate(c: UpdateCalendarEventCommand, parseIso: string -> Option<string>)
    : (r: Result<(real, PersistCalendarEventInput), CalendarDomainErrorCode>)
    ensures !(c.eventId.Finite? && c.eventId.value > 0.0) ==> r == Failure(EventNotFound)
    ensures c.eventId.Finite? && c.eventId.value > 0.0 ==>
      match PersistenceInput(c.fields, Some(c.eventId.value), parseIso)
      case Failure(e) => r == Failure(e)
      case Success(input) => r == Success((c.eventId.value, input))
    ensures r.Success? ==> r.value.0 > 0.0 && c.eventId == Finite(r.value.0)
  {
    if !c.eventId.Finite? || c.eventId.value <= 0.0 then
      Failure(EventNotFound)
    else
      match PersistenceInput(c.fields, Some(c.eventId.value), parseIso)
      case Failure(e) => Failure(e)
      case Success(input) => Success((c.eventId.value, input))
  }

  /** The in-memory repository of the calendar flow: ids are handed out from a
      counter that starts at 1. `writesFail` stands for a storage whose writes throw. */
  class InMemoryCalendarEventRepository {
    var autoIncrement: int
    var events: map<real, PersistCalendarEventInput>
    const writesFail: bool

    /** Every stored id is below the next id to hand out, and ids start at 1. */
    ghost predicate Valid()
      reads this
    {
      && autoIncrement >= 1
      && forall k :: k in events ==> 1.0 <= k < autoIncrement as real
    }

    constructor(writesFail: bool)
      ensures Valid()
      ensures autoIncrement == 1 && events == map[] && this.writesFail == writesFail
    {
      autoIncrement := 1;
      events := map[];
      this.writesFail := writesFail;
    }

    /** Stores a copy of `input` under a new id and returns that id. */
    method Create(input: PersistCalendarEventInput) returns (r: Result<int, RepositoryError>)
      requires Valid()
      modifies this
      ensures Valid()
      ensures writesFail ==> r == Failure(WriteFailed) && unchanged(this)
      ensures !writesFail ==>
        && r == Success(old(autoIncrement))
        && r.value >= 1
        && r.value as real !in old(events)
        && autoIncrement == old(autoIncrement) + 1
        && events == old(events)[r.value as real := input]
    {
      if writesFail {
        return Failure(WriteFailed);
      }
      var id := autoIncrement;
      autoIncrement := autoIncrement + 1;
      events := events[id as real := input];
      r := Success(id);
    }

    /** Replaces the event stored under `eventId`; throws when there is none. */
    method Update(eventId: real, input: PersistCalendarEventInput) returns (r: Result<(), RepositoryError>)
      requires Valid()
      modifies this
      ensures Valid()
      ensures autoIncrement == old(autoIncrement)
      ensures r.Success? <==> !writesFail && eventId in old(events)
      ensures r.Success? ==> events == old(events)[eventId := input]
      ensures r.Failure? ==> events == old(events)
    {
      if eventId !in events {
        return Failure(EventMissing);
      }
      if writesFail {
        return Failure(WriteFailed);
      }
      events := events[eventId := input];
      r := Success(());
    }

    /** The stored event, or `null`. */
    function GetById(eventId: real): (r: Option<PersistCalendarEventInput>)
      reads this
      ensures r.Some? <==> eventId in events
      ensures r.Some? ==> r.value == events[eventId]
    {
      if eventId in events then Some(events[eventId]) else None
    }
  }

  class CreateCalendarEventUseCase {
    const repository: InMemoryCalendarEventRepository

    constructor(repository: InMemoryCalendarEventRepository)
      ensures this.repository == repository
    {
      this.repository := repository;
    }

    /** Validates the command, then stores the event and returns its new id. */
    method Execute(command: SaveCalendarEventCommand, parseIso: string -> Option<string>)
      returns (r: Result<int, CalendarDomainErrorCode>)
      requires repository.Valid()
      modifies repository
      ensures repository.Valid()
      ensures PersistenceInput(command, None, parseIso).Failure? ==>
        r == Failure(PersistenceInput(command, None, parseIso).error) && unchanged(repository)
      ensures PersistenceInput(command, None, parseIso).Success? && repository.writesFail ==>
        r == Failure(EventPersistenceFailed) && unchanged(repository)
      ensures PersistenceInput(command, None, parseIso).Success? && !repository.writesFail ==>
        && r == Success(old(repository.autoIncrement))
        && r.value as real !in old(repository.events)
        && repository.autoIncrement == old(repository.autoIncrement) + 1
        && repository.events == old(repository.events)[r.value as real := PersistenceInput(command, None, parseIso).value]
    {
      var input := PersistenceInput(command, None, parseIso);
      if input.Failure? {
        return Failure(input.error);
      }
      var created := repository.Create(input.value);
      if created.Failure? {
        return Failure(EventPersistenceFailed);
      }
      r := Success(created.value);
    }
  }

  class UpdateCalendarEventUseCase {
    const repository: InMemoryCalendarEventRepository

    constructor(repository: InMemoryCalendarEventRepository)
      ensures this.repository == repository
    {
      this.repository := repository;
    }

    /** Validates the id and the command, then replaces the stored event. */
    method Execute(command: UpdateCalendarEventCommand, parseIso: string -> Option<string>)
      returns (r: Result<(), CalendarDomainErrorCode>)
      requires repository.Valid()
      modifies repository
      ensures repository.Valid()
      ensures repository.autoIncrement == old(repository.autoIncrement)
      ensures ValidateUpdate(command, parseIso).Failure? ==>
        r == Failure(ValidateUpdate(command, parseIso).error) && unchanged(repository)
      ensures ValidateUpdate(command, parseIso).Success? ==>
        var (id, input) := ValidateUpdate(command, parseIso).value;
        if !repository.writesFail && id in old(repository.events) then
          r == Success(()) && repository.events == old(repository.events)[id := input]
        else
          r == Failure(EventPersistenceFailed) && repository.events == old(repository.events)
    {
      var checked := ValidateUpdate(command, parseIso);
      if checked.Failure? {
        return Failure(checked.error);
      }
      var (id, input) := checked.value;
      var updated := repository.Update(id, input);
      if updated.Failure? {
        return Failure(EventPersistenceFailed);
      }
      r := Success(());
    }
  }

  /** The calendar flow: a new repository, an event created through the create use
      case, then updated through the update use case under the id it was given. */
  method CreateThenUpdateFlow(save: SaveCalendarEventCommand, changes: SaveCalendarEventCommand,
                              parseIso: string -> Option<string>)
    returns (createdId: int, created: Option<PersistCalendarEventInput>, updated: Option<PersistCalendarEventInput>)
    requires PersistenceInput(save, None, parseIso).Success?
    ensures createdId == 1
    ensures created == Some(PersistenceInput(save, None, parseIso).value)
    ensures PersistenceInput(changes, Some(1.0), parseIso).Success? ==>
      updated == Some(PersistenceInput(changes, Some(1.0), parseIso).value)
    ensures PersistenceInput(changes, Some(1.0), parseIso).Failure? ==> updated == created
  {
    var repository := new InMemoryCalendarEventRepository(false);
    var createEvent := new CreateCalendarEventUseCase(repository);
    var updateEvent := new UpdateCalendarEventUseCase(repository);
    var createResult := createEvent.Execute(save, parseIso);
    createdId := createResult.value;
    created := repository.GetById(createdId as real);
    var updateResult := updateEvent.Execute(UpdateCalendarEventCommand(Finite(createdId as real), changes), parseIso);
    updated := repository.GetById(createdId as real);
  }

  /** Two events created one after the other on a new repository get ids 1 and 2, and
      each is stored under its own id. */
  method CreateTwiceFlow(first: SaveCalendarEventCommand, second: SaveCalendarEventCommand,
                         parseIso: string -> Option<string>)
    returns (firstId: int, secondId: int, storedFirst: Option<PersistCalendarEventInput>,
             storedSecond: Option<PersistCalendarEventInput>)
    requires PersistenceInput(first, None, parseIso).Success?
    requires PersistenceInput(second, None, parseIso).Success?
    ensures firstId == 1 && secondId == 2
    ensures storedFirst == Some(PersistenceInput(first, None, parseIso).value)
    ensures storedSecond == Some(PersistenceInput(second, None, parseIso).value)
  {
    var repository := new InMemoryCalendarEventRepository(false);
    var createEvent := new CreateCalendarEventUseCase(repository);
    var firstResult := createEvent.Execute(first, parseIso);
    firstId := firstResult.value;
    var secondResult := createEvent.Execute(second, parseIso);
    secondId := secondResult.value;
    storedFirst := repository.GetById(firstId as real);
    storedSecond := repository.GetById(secondId as real);
  }

  /** Updating an id the repository never handed out fails with `EVENT_PERSISTENCE_FAILED`,
      and an id that is not a positive finite number with `EVENT_NOT_FOUND`. */
  method UpdateMissingFlow(eventId: JsNumber, changes: SaveCalendarEventCommand, parseIso: string -> Option<string>)
    returns (r: Result<(), CalendarDomainErrorCode>)
    requires PersistenceInput(changes, if eventId.Finite? then Some(eventId.value) else None, parseIso).Success?
    ensures eventId.Finite? && eventId.value > 0.0 ==> r == Failure(EventPersistenceFailed)
    ensures !(eventId.Finite? && eventId.value > 0.0) ==> r == Failure(EventNotFound)
  {
    var repository := new InMemoryCalendarEventRepository(false);
    var updateEvent := new UpdateCalendarEventUseCase(repository);
    r := updateEvent.Execute(UpdateCalendarEventCommand(eventId, changes), parseIso);
  }

  /** A command whose title and date are accepted is stored with that title and
      date, its own ids, the default kind and priority, and its notes normalized. */
  lemma AcceptedCommandInput(c: SaveCalendarEventCommand, id: Option<real>, parseIso: string -> Option<string>,
                             title: string, iso: string)
    requires CreateEventTitle(c.title) == Success(EventTitle(title))
    requires CreateEventDateTime(c.dateTime, parseIso) == Success(EventDateTime(iso))
    ensures PersistenceInput(c, id, parseIso) == Success(PersistCalendarEventInput(
      title, iso, c.ucId, c.semesterId, c.tipo.GetOr(Evento), c.priority.GetOr(Medium), NormalizeNotes(c.notes)))
  {
    NormalizeNotesIdempotent(c.notes);
  }

  /** The create command of the calendar flow. */
  function SprintCommand(): SaveCalendarEventCommand {
    SaveCalendarEventCommand("  Entrega Sprint  ", "2026-03-15T09:00:00", Some(10.0), Some(2.0),
                             Some(Atividade), Some(Medium), Some("  Preparar documentacao  "))
  }

  lemma SprintCommandTitle()
    ensures CreateEventTitle(SprintCommand().title) == Success(EventTitle("Entrega Sprint"))
  {
    PaddedBmpTitle("  Entrega Sprint  ", "  ", "Entrega Sprint", "  ");
  }

  lemma SprintCommandNotes()
    ensures NormalizeNotes(SprintCommand().notes) == Some("Preparar documentacao")
  {
    var t := "Preparar documentacao";
    assert !IsJsWhitespace(t[0]) && !IsJsWhitespace(t[|t| - 1]);
    assert AllWhitespace("  ");
    assert "  Preparar documentacao  " == "  " + t + "  ";
    PaddedNotesAs("  Preparar documentacao  ", "  ", t, "  ");
  }

  lemma SprintCommandDate(parseIso: string -> Option<string>, iso: string)
    requires parseIso(SprintCommand().dateTime) == Some(iso)
    ensures CreateEventDateTime(SprintCommand().dateTime, parseIso) == Success(EventDateTime(iso))
  {
    assert !IsJsWhitespace(SprintCommand().dateTime[0]);
  }

  /** The normalization of the flow's create command: trimmed title and notes, the
      given ids, kind and priority kept. */
  lemma ExampleCreateNormalization(parseIso: string -> Option<string>, iso: string)
    requires parseIso(SprintCommand().dateTime) == Some(iso)
    ensures PersistenceInput(SprintCommand(), None, parseIso)
      == Success(PersistCalendarEventInput("Entrega Sprint", iso, Some(10.0), Some(2.0), Atividade, Medium,
                                           Some("Preparar documentacao")))
  {
    SprintCommandTitle();
    SprintCommandNotes();
    SprintCommandDate(parseIso, iso);
    AcceptedCommandInput(SprintCommand(), None, parseIso, "Entrega Sprint", iso);
  }

  /** The update command of the calendar flow, for the id the create step handed out. */
  function RevisionCommand(): UpdateCalendarEventCommand {
    UpdateCalendarEventCommand(Finite(1.0),
      SaveCalendarEventCommand("  Entrega Sprint final  ", "2026-03-16T11:30:00", None, Some(2.0),
                               Some(Evento), Some(High), Some("  ")))
  }

  lemma RevisionCommandTitle()
    ensures CreateEventTitle(RevisionCommand().fields.title) == Success(EventTitle("Entrega Sprint final"))
  {
    PaddedBmpTitle("  Entrega Sprint final  ", "  ", "Entrega Sprint final", "  ");
  }

  lemma RevisionCommandNotes()
    ensures NormalizeNotes(RevisionCommand().fields.notes) == None
  {
    assert AllWhitespace("  ");
  }

  lemma RevisionCommandDate(parseIso: string -> Option<string>, iso: string)
    requires parseIso(RevisionCommand().fields.dateTime) == Some(iso)
    ensures CreateEventDateTime(RevisionCommand().fields.dateTime, parseIso) == Success(EventDateTime(iso))
  {
    assert !IsJsWhitespace(RevisionCommand().fields.dateTime[0]);
  }

  /** The update of the flow: blank notes are stored as `null`, the cleared UC id is
      stored as `null`, and the new title is trimmed. */
  lemma ExampleUpdateNormalization(parseIso: string -> Option<string>, iso: string)
    requires parseIso(RevisionCommand().fields.dateTime) == Some(iso)
    ensures ValidateUpdate(RevisionCommand(), parseIso)
      == Success((1.0, PersistCalendarEventInput("Entrega Sprint final", iso, None, Some(2.0), Evento, High, None)))
  {
    RevisionCommandTitle();
    RevisionCommandNotes();
    RevisionCommandDate(parseIso, iso);
    AcceptedCommandInput(RevisionCommand().fields, Some(1.0), parseIso, "Entrega Sprint final", iso);
  }

  /** The flow's two commands through the use cases: the event gets id 1, is stored
      normalized, and the update replaces it with the normalized changes. */
  method ExampleCalendarFlow(parseIso: string -> Option<string>, createdIso: string, updatedIso: string)
    returns (createdId: int, created: Option<PersistCalendarEventInput>, updated: Option<PersistCalendarEventInput>)
    requires parseIso(SprintCommand().dateTime) == Some(createdIso)
    requires parseIso(RevisionCommand().fields.dateTime) == Some(updatedIso)
    ensures createdId == 1
    ensures created == Some(PersistCalendarEventInput("Entrega Sprint", createdIso, Some(10.0), Some(2.0), Atividade,
                                                      Medium, Some("Preparar documentacao")))
    ensures updated == Some(PersistCalendarEventInput("Entrega Sprint final", updatedIso, None, Some(2.0), Evento,
                                                      High, None))
  {
    ExampleCreateNormalization(parseIso, createdIso);
    ExampleUpdateNormalization(parseIso, updatedIso);
    createdId, created, updated := CreateThenUpdateFlow(SprintCommand(), RevisionCommand().fields, parseIso);
  }

  /** The command of the missing-event test: no ids, kind, priority or notes. */
  function OrphanCommand(): UpdateCalendarEventCommand {
    UpdateCalendarEventCommand(Finite(999.0),
      SaveCalendarEventCommand("Evento orfao", "2026-03-20T10:00:00", None, None, None, None, None))
  }

  lemma OrphanCommandTitle()
    ensures CreateEventTitle(OrphanCommand().fields.title) == Success(EventTitle("Evento orfao"))
  {
    BmpTitleByLength("Evento orfao");
  }

  lemma OrphanCommandDate(parseIso: string -> Option<string>, iso: string)
    requires parseIso(OrphanCommand().fields.dateTime) == Some(iso)
    ensures CreateEventDateTime(OrphanCommand().fields.dateTime, parseIso) == Success(EventDateTime(iso))
  {
    assert !IsJsWhitespace(OrphanCommand().fields.dateTime[0]);
  }

  /** The missing kind and priority take their defaults `evento` and `medium`. */
  lemma ExampleUpdateDefaults(parseIso: string -> Option<string>, iso: string)
    requires parseIso(OrphanCommand().fields.dateTime) == Some(iso)
    ensures ValidateUpdate(OrphanCommand(), parseIso)
      == Success((999.0, PersistCalendarEventInput("Evento orfao", iso, None, None, Evento, Medium, None)))
  {
    OrphanCommandTitle();
    OrphanCommandDate(parseIso, iso);
    AcceptedCommandInput(OrphanCommand().fields, Some(999.0), parseIso, "Evento orfao", iso);
  }
}
