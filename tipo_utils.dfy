/** Event-kind helpers (src/utils/tipoUtils.ts): the option list, the chip-variant,
    icon and colour tables, and the coercion of stored strings to an event kind. */
module TipoUtils {
  import opened Wrappers
  import opened DbTypes

  datatype ChipVariant = Info | Warning | EventChip

  datatype TipoOption = TipoOption(value: EventTipo, icon: string)

  /** `TIPO_OPTIONS`, in display order. */
  const TipoOptions: seq<TipoOption> :=
    [TipoOption(Avaliacao, "quiz"), TipoOption(Atividade, "assignment"), TipoOption(Evento, "event")]

  /** `tipoChipVariant` */
  const TipoChipVariant: map<EventTipo, ChipVariant> :=
    map[Avaliacao := Info, Atividade := Warning, Evento := EventChip]

  /** `tipoIcons` */
  const TipoIcons: map<EventTipo, string> :=
    map[Avaliacao := "quiz", Atividade := "assignment", Evento := "event"]

  /** The base colours of the theme's info, warning and event palettes. */
  datatype ThemeColors = ThemeColors(infoBase: string, warningBase: string, eventBase: string)

  /** `buildTipoColors` */
  function BuildTipoColors(colors: ThemeColors): (r: map<EventTipo, string>)
    ensures r.Keys == {Avaliacao, Atividade, Evento}
    ensures r[Avaliacao] == colors.infoBase && r[Atividade] == colors.warningBase && r[Evento] == colors.eventBase
  {
    map[Avaliacao := colors.infoBase, Atividade := colors.warningBase, Evento := colors.eventBase]
  }

  /** Every table has an entry for every event kind, and distinct kinds get distinct
      chip variants and icons. */
  lemma TablesTotal()
    ensures forall t: EventTipo :: t in TipoChipVariant && t in TipoIcons
    ensures forall t, u: EventTipo :: t != u ==> TipoChipVariant[t] != TipoChipVariant[u]
    ensures forall t, u: EventTipo :: t != u ==> TipoIcons[t] != TipoIcons[u]
  {
    forall t: EventTipo ensures t in TipoChipVariant && t in TipoIcons {
      match t
      case Avaliacao =>
      case Atividade =>
      case Evento =>
    }
  }

  /** The option list names every kind exactly once, with the icon of `tipoIcons`. */
  lemma OptionsAgreeWithIcons()
    ensures forall i :: 0 <= i < |TipoOptions| ==> TipoOptions[i].icon == TipoIcons[TipoOptions[i].value]
    ensures forall t: EventTipo :: t in TipoIcons && TipoOption(t, TipoIcons[t]) in TipoOptions
    ensures forall i, j :: 0 <= i < j < |TipoOptions| ==> TipoOptions[i].value != TipoOptions[j].value
  {
    forall t: EventTipo ensures t in TipoIcons && TipoOption(t, TipoIcons[t]) in TipoOptions {
      match t
      case Avaliacao => assert TipoOptions[0] == TipoOption(t, TipoIcons[t]);
      case Atividade => assert TipoOptions[1] == TipoOption(t, TipoIcons[t]);
      case Evento => assert TipoOptions[2] == TipoOption(t, TipoIcons[t]);
    }
  }

  /** `toEventTipo`: one of the three names maps to itself, anything else (including
      `null` and `undefined`) to `avaliacao`. */
  function ToEventTipo(tipo: Option<string>): (r: EventTipo)
    ensures tipo.Some? && tipo.value in {"avaliacao", "atividade", "evento"} ==> TipoName(r) == tipo.value
    ensures !(tipo.Some? && tipo.value in {"avaliacao", "atividade", "evento"}) ==> r == Avaliacao
  {
    match tipo
    case Some("atividade") => Atividade
    case Some("evento") => Evento
    case Some("avaliacao") => Avaliacao
    case _ => Avaliacao
  }

  /** Every event kind survives a trip through its stored name, and the names are distinct. */
  lemma TipoNameRoundTrip(t: EventTipo)
    ensures ToEventTipo(Some(TipoName(t))) == t
    ensures forall u: EventTipo :: TipoName(u) == TipoName(t) ==> u == t
  {
  }

  /** Coercing an already coerced value changes nothing. */
  lemma ToEventTipoIdempotent(tipo: Option<string>)
    ensures ToEventTipo(Some(TipoName(ToEventTipo(tipo)))) == ToEventTipo(tipo)
  {
    TipoNameRoundTrip(ToEventTipo(tipo));
  }
}
