/** The calendar domain: its error codes (src/domain/calendar/errors/CalendarDomainError.ts),
    the `EventTitle` and `EventDateTime` value objects and the `CalendarEvent` entity. */
module CalendarDomain {
  import opened Wrappers
  import opened JsText
  import opened DbTypes

  datatype CalendarDomainErrorCode =
    | EventTitleEmpty
    | EventTitleTooLong
    | EventDateTimeInvalid
    | EventNotFound
    | EventPersistenceFailed

  /** Longest accepted title, in UTF-16 code units. */
  const MaxTitleLength: nat := 120

  datatype EventTitle = EventTitle(value: string)

  /** `EventTitle.create`: trim, reject an empty result, then reject one longer than 120. */
  function CreateEventTitle(raw: string): (r: Result<EventTitle, CalendarDomainErrorCode>)
    ensures r == Failure(EventTitleEmpty) <==> AllWhitespace(raw)
    ensures r == Failure(EventTitleTooLong) <==> !AllWhitespace(raw) && Utf16Length(Trim(raw)) > MaxTitleLength
    ensures r.Success? ==> r.value.value == Trim(raw) && 1 <= Utf16Length(r.value.value) <= MaxTitleLength
  {
    var normalized := Trim(raw);
    TrimEmptyIffBlank(raw);
    if normalized == [] then
      Failure(EventTitleEmpty)
    else if Utf16Length(normalized) > MaxTitleLength then
      Failure(EventTitleTooLong)
    else
      Success(EventTitle(normalized))
  }

  /** Re-creating a title from an accepted title's value gives the same title. */
  lemma EventTitleIdempotent(raw: string)
    requires CreateEventTitle(raw).Success?
    ensures CreateEventTitle(CreateEventTitle(raw).value.value) == CreateEventTitle(raw)
  {
    var t := Trim(raw);
    TrimIdempotent(raw);
    TrimEmptyIffBlank(t);
    assert Trim(t) == t && t != [];
  }

  /** Blank input is `EVENT_TITLE_EMPTY` before any length check: 121 spaces are empty, not too long. */
  lemma ExampleEmptyBeforeTooLong()
    ensures CreateEventTitle("   ") == Failure(EventTitleEmpty)
    ensures CreateEventTitle(seq(121, _ => ' ')) == Failure(EventTitleEmpty)
  {
    assert AllWhitespace("   ");
    assert AllWhitespace(seq(121, _ => ' '));
  }

  /** A title without surrounding whitespace whose characters all lie in the Basic
      Multilingual Plane is judged by its character count alone. */
  lemma BmpTitleByLength(t: string)
    requires t != [] && !IsJsWhitespace(t[0]) && !IsJsWhitespace(t[|t| - 1])
    requires forall i :: 0 <= i < |t| ==> t[i] as int < 0x1_0000
    ensures |t| > MaxTitleLength ==> CreateEventTitle(t) == Failure(EventTitleTooLong)
    ensures |t| <= MaxTitleLength ==> CreateEventTitle(t) == Success(EventTitle(t))
  {
    TrimPadded([], t, []);
    assert [] + t + [] == t;
    Utf16LengthBmp(t);
  }

  /** 121 letters are too long; exactly 120 are accepted. */
  lemma ExampleLengthLimit()
    ensures CreateEventTitle(seq(121, _ => 'a')) == Failure(EventTitleTooLong)
    ensures CreateEventTitle(seq(120, _ => 'a')) == Success(EventTitle(seq(120, _ => 'a')))
  {
    BmpTitleByLength(seq(121, _ => 'a'));
    BmpTitleByLength(seq(120, _ => 'a'));
  }

  /** A title surrounded by whitespace is accepted as the title alone. */
  lemma PaddedTitleAccepted(pre: string, t: string, post: string)
    requires AllWhitespace(pre) && AllWhitespace(post)
    requires t != [] && !IsJsWhitespace(t[0]) && !IsJsWhitespace(t[|t| - 1])
    requires Utf16Length(t) <= MaxTitleLength
    ensures CreateEventTitle(pre + t + post) == Success(EventTitle(t))
  {
    TrimPadded(pre, t, post);
  }

  /** A string made of whitespace, a short title in the Basic Multilingual Plane
      and whitespace is accepted as that title. */
  lemma PaddedBmpTitle(s: string, pre: string, t: string, post: string)
    requires s == pre + t + post
    requires AllWhitespace(pre) && AllWhitespace(post)
    requires t != [] && !IsJsWhitespace(t[0]) && !IsJsWhitespace(t[|t| - 1])
    requires forall i :: 0 <= i < |t| ==> t[i] as int < 0x1_0000
    requires |t| <= MaxTitleLength
    ensures CreateEventTitle(s) == Success(EventTitle(t))
  {
    Utf16LengthBmp(t);
    PaddedTitleAccepted(pre, t, post);
  }

  /** Surrounding whitespace is dropped from an accepted title. */
  lemma ExampleTrimmedTitle()
    ensures CreateEventTitle("  Teste 1 ") == Success(EventTitle("Teste 1"))
  {
    PaddedBmpTitle("  Teste 1 ", "  ", "Teste 1", " ");
  }

  datatype EventDateTime = EventDateTime(iso: string)

  /** `EventDateTime.create`: a blank string is rejected, then the string is parsed
      as a date; `parseIso` stands for `new Date(raw).toISOString()` and is `None`
      where that date is invalid. */
  function CreateEventDateTime(rawIso: string, parseIso: string -> Option<string>)
    : (r: Result<EventDateTime, CalendarDomainErrorCode>)
    ensures r.Failure? ==> r.error == EventDateTimeInvalid
    ensures r.Failure? <==> AllWhitespace(rawIso) || parseIso(rawIso).None?
    ensures r.Success? ==> Some(r.value.iso) == parseIso(rawIso)
  {
    TrimEmptyIffBlank(rawIso);
    if Trim(rawIso) == [] then Failure(EventDateTimeInvalid)
    else match parseIso(rawIso)
      case None => Failure(EventDateTimeInvalid)
      case Some(iso) => Success(EventDateTime(iso))
  }

  datatype CalendarEventProps = CalendarEventProps(
    id: Option<real>,
    title: string,
    dateTimeISO: string,
    ucId: Option<real>,
    semesterId: Option<real>,
    tipo: EventTipo,
    priority: EventPriority,
    notes: Option<string>)

  /** Notes as they are stored: trimmed, and `null` when missing or blank. Both
      `notes?.trim() || null` in the use cases and `notes?.trim() ? notes.trim() : null`
      in `toPersistence` compute this. */
  function NormalizeNotes(notes: Option<string>): (r: Option<string>)
    ensures r.None? <==> notes.None? || AllWhitespace(notes.value)
    ensures r.Some? ==> r.value == Trim(notes.value) && r.value != []
  {
    match notes
    case None => None
    case Some(n) =>
      TrimEmptyIffBlank(n);
      if Trim(n) == [] then None else Some(Trim(n))
  }

  /** Notes surrounded by whitespace are kept without it. */
  lemma PaddedNotesKept(pre: string, t: string, post: string)
    requires AllWhitespace(pre) && AllWhitespace(post)
    requires t != [] && !IsJsWhitespace(t[0]) && !IsJsWhitespace(t[|t| - 1])
    ensures NormalizeNotes(Some(pre + t + post)) == Some(t)
  {
    TrimPadded(pre, t, post);
  }

  /** Notes written as whitespace, a text and whitespace are stored as that text. */
  lemma PaddedNotesAs(s: string, pre: string, t: string, post: string)
    requires s == pre + t + post
    requires AllWhitespace(pre) && AllWhitespace(post)
    requires t != [] && !IsJsWhitespace(t[0]) && !IsJsWhitespace(t[|t| - 1])
    ensures NormalizeNotes(Some(s)) == Some(t)
  {
    PaddedNotesKept(pre, t, post);
  }

  /** Normalizing notes twice is normalizing them once. */
  lemma NormalizeNotesIdempotent(notes: Option<string>)
    ensures NormalizeNotes(NormalizeNotes(notes)) == NormalizeNotes(notes)
  {
    if notes.Some? {
      TrimIdempotent(notes.value);
    }
  }

  /** The entity: read-only properties. */
  datatype CalendarEvent = CalendarEvent(props: CalendarEventProps)

  /** The `id` getter. */
  function EventId(e: CalendarEvent): Option<real> {
    e.props.id
  }

  /** `toPersistence`: the properties with notes normalized. */
  function ToPersistence(e: CalendarEvent): (r: CalendarEventProps)
    ensures r == e.props.(notes := r.notes)
    ensures r.notes.None? <==> e.props.notes.None? || AllWhitespace(e.props.notes.value)
    ensures r.notes.Some? ==> r.notes.value == Trim(e.props.notes.value)
  {
    e.props.(notes := NormalizeNotes(e.props.notes))
  }

  /** The getter returns the constructor's id, and persisting keeps it. */
  lemma EventIdKept(p: CalendarEventProps)
    ensures EventId(CalendarEvent(p)) == p.id
    ensures EventId(CalendarEvent(ToPersistence(CalendarEvent(p)))) == p.id
  {
  }

  /** Persisting an already persisted event changes nothing. */
  lemma ToPersistenceIdempotent(e: CalendarEvent)
    ensures ToPersistence(CalendarEvent(ToPersistence(e))) == ToPersistence(e)
  {
    NormalizeNotesIdempotent(e.props.notes);
  }
}
