/**
 * The transcript-to-form mapper `VoiceFormManager`. The repository holds
 * two copies of it (app.py and assemblyai_client.py) that differ only in
 * the stop-word list `clean_text` removes, so every operation here takes
 * that list as its first parameter; AppVoice and ClientVoice fix it.
 */
module VoiceForm {
  import opened Wrappers
  import opened PyStr

  /** The five voice commands, in the order `detect_commands` tries them. */
  datatype Action = NextField | PreviousField | SubmitForm | ClearForm | ShowHelp

  /** The `action` string the command result carries. */
  function ActionName(a: Action): string {
    match a
    case NextField => "next_field"
    case PreviousField => "previous_field"
    case SubmitForm => "submit_form"
    case ClearForm => "clear_form"
    case ShowHelp => "show_help"
  }

  /** Position of the command in the `if`/`elif` chain. */
  function Rank(a: Action): nat {
    match a
    case NextField => 0
    case PreviousField => 1
    case SubmitForm => 2
    case ClearForm => 3
    case ShowHelp => 4
  }

  /** The keyword list tested for each command. */
  function CommandWords(a: Action): seq<string> {
    match a
    case NextField => ["siguiente", "continuar", "next", "adelante"]
    case PreviousField => ["anterior", "atrás", "back", "regresar"]
    case SubmitForm => ["enviar", "registrar", "finalizar", "terminar"]
    case ClearForm => ["limpiar", "borrar", "reset", "empezar de nuevo"]
    case ShowHelp => ["ayuda", "help", "asistencia"]
  }

  /** `any(cmd in text for cmd in words)` */
  predicate AnyIn(words: seq<string>, text: string) {
    exists w :: w in words && Contains(text, w)
  }

  /** Some keyword of command `a` occurs in `text`. */
  predicate Mentions(text: string, a: Action) {
    AnyIn(CommandWords(a), text)
  }

  /**
   * `detect_commands`: the first command, in chain order, one of whose
   * keywords occurs in the text; None when no keyword of any command occurs.
   */
  function DetectCommands(text: string): (r: Option<Action>)
    ensures r.None? <==> forall a :: !Mentions(text, a)
    ensures r.Some? ==> Mentions(text, r.value)
    ensures r.Some? ==> forall b :: Rank(b) < Rank(r.value) ==> !Mentions(text, b)
  {
    if Mentions(text, NextField) then Some(NextField)
    else if Mentions(text, PreviousField) then Some(PreviousField)
    else if Mentions(text, SubmitForm) then Some(SubmitForm)
    else if Mentions(text, ClearForm) then Some(ClearForm)
    else if Mentions(text, ShowHelp) then Some(ShowHelp)
    else None
  }

  /** The form fields `auto_detect_field` can report, with the catch-all `unknown`. */
  datatype FieldName = Nombre | Apellido | Edad | Correo | Celular | Unknown

  /** The `field` string the result carries. */
  function FieldKey(f: FieldName): string {
    match f
    case Nombre => "nombre"
    case Apellido => "apellido"
    case Edad => "edad"
    case Correo => "correo"
    case Celular => "celular"
    case Unknown => "unknown"
  }

  /** An ordered table of fields, each with its ordered keyword list. */
  type Table = seq<(FieldName, seq<string>)>

  /** `field_keywords`, in insertion order (the order `dict.items()` yields). */
  const FieldKeywords: Table := [
    (Nombre, ["nombre", "llámame", "me llamo", "mi nombre es", "soy"]),
    (Apellido, ["apellido", "apellidos", "mis apellidos"]),
    (Edad, ["edad", "años", "tengo", "mi edad es"]),
    (Correo, ["correo", "email", "mail", "correo electrónico"]),
    (Celular, ["celular", "teléfono", "número", "contacto", "móvil"])
  ]

  /** The `action` of an auto-detected result: `fill_field` or `unknown`. */
  datatype DetectAction = FillField | UnknownAction

  /** What `process_voice_input` returns, one constructor per shape of its result dictionary. */
  datatype Outcome =
    | Failed(error: string)
    | Command(action: Action)
    | Explicit(field: string, value: string, confidence: real, originalText: string)
    | Detected(detected: FieldName, value: string, confidence: real, originalText: string, fill: DetectAction)

  /** The `action` entry of the result dictionary, None where the dictionary has none. */
  function ActionEntry(o: Outcome): (r: Option<string>)
    ensures r.Some? <==> o.Command? || o.Detected?
  {
    match o
    case Command(a) => Some(ActionName(a))
    case Detected(_, _, _, _, fill) => Some(if fill == FillField then "fill_field" else "unknown")
    case _ => None
  }

  /** The `field` entry of the result dictionary, None where the dictionary has none. */
  function FieldEntry(o: Outcome): (r: Option<string>)
    ensures r.Some? <==> o.Explicit? || o.Detected?
  {
    match o
    case Explicit(field, _, _, _) => Some(field)
    case Detected(detected, _, _, _, _) => Some(FieldKey(detected))
    case _ => None
  }

  /** What the transcription service handed back: an error, or text and an optional confidence. */
  datatype Transcription =
    | TranscriptionError(message: string)
    | Transcript(text: string, confidence: Option<real>)

  /** `[word for word in words if word not in stop]` */
  function DropStopwords(words: seq<string>, stop: seq<string>): (r: seq<string>)
    ensures forall w :: w in r <==> w in words && w !in stop
    ensures |r| <= |words|
  {
    if words == [] then []
    else if words[0] in stop then DropStopwords(words[1..], stop)
    else [words[0]] + DropStopwords(words[1..], stop)
  }

  /** Filtering a concatenation filters each part, keeping the order of the survivors. */
  lemma {:induction false} DropStopwordsAppend(a: seq<string>, b: seq<string>, stop: seq<string>)
    ensures DropStopwords(a + b, stop) == DropStopwords(a, stop) + DropStopwords(b, stop)
  {
    if a == [] {
      assert a + b == b;
    } else {
      assert (a + b)[0] == a[0];
      assert (a + b)[1..] == a[1..] + b;
      DropStopwordsAppend(a[1..], b, stop);
    }
  }

  /** A single token survives exactly when it is not a stop word. */
  lemma DropStopwordsOne(w: string, stop: seq<string>)
    ensures DropStopwords([w], stop) == if w in stop then [] else [w]
  {
  }

  /**
   * `clean_text`: split on whitespace, drop the stop words, join with single
   * spaces, title-case, delete every '.' and ',', then strip.
   */
  function CleanText(stop: seq<string>, text: string): (r: string)
    ensures '.' !in r && ',' !in r
    ensures r == [] || (!IsSpace(r[0]) && !IsSpace(r[|r| - 1]))
    ensures (forall w :: w in Split(text) ==> w in stop) ==> r == []
  {
    var kept := DropStopwords(Split(text), stop);
    var titled := Title(Join(kept));
    var noDots := RemoveChar(titled, '.');
    var noCommas := RemoveChar(noDots, ',');
    assert '.' !in noCommas;
    assert kept != [] ==> kept[0] in kept;
    assert kept == [] ==> Join(kept) == "" && noCommas == [];
    Strip(noCommas)
  }

  /**
   * `extract_value_after_keyword`: the cleaned remainder of the text after
   * the first occurrence of the keyword, or the text itself when the
   * keyword does not occur.
   */
  function ExtractValueAfterKeyword(stop: seq<string>, text: string, keyword: string): (r: string)
    ensures !Contains(text, keyword) ==> r == text
    ensures Contains(text, keyword) ==>
      var p := Find(text, keyword);
      FirstMatch(text, keyword, p) && r == CleanText(stop, Strip(text[p + |keyword|..]))
  {
    if Contains(text, keyword) then
      var p := Find(text, keyword);
      assert FirstMatch(text, keyword, p);
      CleanText(stop, Strip(text[p + |keyword|..]))
    else text
  }

  /** Index of the first keyword in the list that occurs in the text. */
  function FirstKeyword(keywords: seq<string>, text: string): (r: Option<nat>)
    ensures r.None? <==> forall j :: 0 <= j < |keywords| ==> !Contains(text, keywords[j])
    ensures r.Some? ==> r.value < |keywords| && Contains(text, keywords[r.value])
    ensures r.Some? ==> forall j :: 0 <= j < r.value ==> !Contains(text, keywords[j])
  {
    if keywords == [] then None
    else if Contains(text, keywords[0]) then Some(0)
    else match FirstKeyword(keywords[1..], text)
      case None => None
      case Some(j) => Some(j + 1)
  }

  /** No keyword of any field of the table occurs in the text. */
  ghost predicate NoKeyword(table: Table, text: string) {
    forall i, j :: 0 <= i < |table| && 0 <= j < |table[i].1| ==> !Contains(text, table[i].1[j])
  }

  /**
   * Keyword `j` of field `i` is the one the nested scan stops at: it occurs,
   * no keyword of an earlier field occurs, and no earlier keyword of field `i` occurs.
   */
  ghost predicate Selected(table: Table, text: string, i: int, j: int) {
    && 0 <= i < |table| && 0 <= j < |table[i].1|
    && Contains(text, table[i].1[j])
    && (forall i', j' :: 0 <= i' < i && 0 <= j' < |table[i'].1| ==> !Contains(text, table[i'].1[j']))
    && (forall j' :: 0 <= j' < j ==> !Contains(text, table[i].1[j']))
  }

  /** The nested `for field ... for keyword ...` scan: (field index, keyword index) of the first hit. */
  function FirstField(table: Table, text: string): (r: Option<(nat, nat)>)
    ensures r.None? <==> NoKeyword(table, text)
    ensures r.Some? ==> Selected(table, text, r.value.0, r.value.1)
  {
    if table == [] then None
    else match FirstKeyword(table[0].1, text)
      case Some(j) => Some((0, j))
      case None =>
        match FirstField(table[1..], text)
        case None => None
        case Some(p) => Some((p.0 + 1, p.1))
  }

  /**
   * `auto_detect_field`: the field of the first keyword hit in table order,
   * with the value after that keyword; otherwise `unknown` with the whole
   * cleaned text.
   */
  function AutoDetectField(stop: seq<string>, text: string, confidence: real): (r: Outcome)
    ensures r.Detected? && r.originalText == text && r.confidence == confidence
    ensures r.detected == Unknown <==> NoKeyword(FieldKeywords, text)
    ensures r.detected == Unknown ==> r.fill == UnknownAction && r.value == CleanText(stop, text)
    ensures r.detected != Unknown ==> r.fill == FillField
    ensures r.detected != Unknown ==>
      exists i, j :: && Selected(FieldKeywords, text, i, j)
                     && r.detected == FieldKeywords[i].0
                     && r.value == ExtractValueAfterKeyword(stop, text, FieldKeywords[i].1[j])
  {
    match FirstField(FieldKeywords, text)
    case Some(p) =>
      assert FieldKeywords[p.0].0 != Unknown;
      Detected(FieldKeywords[p.0].0, ExtractValueAfterKeyword(stop, text, FieldKeywords[p.0].1[p.1]),
               confidence, text, FillField)
    case None =>
      Detected(Unknown, CleanText(stop, text), confidence, text, UnknownAction)
  }

  /** `if current_field:` -- a field was named and is not the empty string. */
  predicate Given(currentField: Option<string>) {
    currentField.Some? && currentField.value != ""
  }

  /** The transcript as the mapper sees it: `result["text"].lower().strip()`. */
  function Normalize(raw: string): (r: string)
    ensures r == [] || (!IsSpace(r[0]) && !IsSpace(r[|r| - 1]))
    ensures Trimmed(Lower(raw), r)
  {
    Strip(Lower(raw))
  }

  /**
   * `process_voice_input`, with the transcription call replaced by its
   * result `heard` and the client's `enabled` flag as a parameter.
   */
  function ProcessVoiceInput(stop: seq<string>, enabled: bool, heard: Transcription,
                             currentField: Option<string>): (r: Outcome)
    ensures !enabled ==> r == Failed("AssemblyAI no disponible")
    ensures enabled && heard.TranscriptionError? ==> r == Failed(heard.message)
    ensures r.Explicit? <==> enabled && heard.Transcript? && Given(currentField)
    ensures r.Explicit? ==>
      && r.field == currentField.value
      && r.originalText == Normalize(heard.text)
      && r.value == CleanText(stop, r.originalText)
      && r.confidence == heard.confidence.GetOr(1.0)
    ensures r.Command? <==>
      enabled && heard.Transcript? && !Given(currentField) && DetectCommands(Normalize(heard.text)).Some?
    ensures r.Command? ==> DetectCommands(Normalize(heard.text)) == Some(r.action)
    ensures r.Detected? ==>
      && DetectCommands(Normalize(heard.text)) == None
      && r == AutoDetectField(stop, Normalize(heard.text), heard.confidence.GetOr(1.0))
    ensures enabled && heard.Transcript? && !Given(currentField) && DetectCommands(Normalize(heard.text)).None? ==>
      r == AutoDetectField(stop, Normalize(heard.text), heard.confidence.GetOr(1.0))
  {
    if !enabled then Failed("AssemblyAI no disponible")
    else match heard
      case TranscriptionError(message) => Failed(message)
      case Transcript(raw, confidence) =>
        var text := Normalize(raw);
        if Given(currentField) then
          Explicit(currentField.value, CleanText(stop, text), confidence.GetOr(1.0), text)
        else match DetectCommands(text)
          case Some(a) => Command(a)
          case None => AutoDetectField(stop, text, confidence.GetOr(1.0))
  }
}

/** Properties of the mapper that hold whatever the stop-word list is. */
module VoiceFormProperties {
  import opened Wrappers
  import opened PyStr
  import opened VoiceForm

  /** `clean_text` once the surviving tokens are known. */
  lemma CleanTextOfKept(stop: seq<string>, text: string, kept: seq<string>)
    requires DropStopwords(Split(text), stop) == kept
    ensures CleanText(stop, text) == Strip(RemoveChar(RemoveChar(Title(Join(kept)), '.'), ','))
  {
  }

  /** A text that is a single stop word cleans to the empty string. */
  lemma StopWordCleansAway(stop: seq<string>, w: string)
    requires IsWord(w) && w in stop
    ensures CleanText(stop, w) == ""
  {
    SplitWord(w);
    assert DropStopwords([w], stop) == [];
    CleanTextOfKept(stop, w, []);
    assert RemoveChar(RemoveChar(Title(Join([])), '.'), ',') == [];
  }

  /**
   * When every surviving token is a lower-case word, the cleaned text is
   * the surviving tokens, in order, each with its first letter upper-cased,
   * joined by single spaces.
   */
  lemma CleanTextOfLowerWords(stop: seq<string>, text: string)
    requires LowerWords(DropStopwords(Split(text), stop))
    ensures CleanText(stop, text) == Join(CapitalizeAll(DropStopwords(Split(text), stop)))
  {
    var kept := DropStopwords(Split(text), stop);
    CleanTextOfKept(stop, text, kept);
    CapitalizeLowerWords(kept);
  }

  /** A text whose only surviving token is a lower-case word cleans to that word capitalized. */
  lemma CleanToSingleWord(stop: seq<string>, text: string, w: string)
    requires LowerWord(w)
    requires DropStopwords(Split(text), stop) == [w]
    ensures CleanText(stop, text) == Capitalized(w)
  {
    CleanTextOfKept(stop, text, [w]);
    assert Join([w]) == w;
    CapitalizeLowerWord(w);
  }

  /** A text that is a single lower-case word, not a stop word, cleans to the capitalized word. */
  lemma KeptWordCapitalized(stop: seq<string>, w: string)
    requires LowerWord(w) && w !in stop
    ensures CleanText(stop, w) == Capitalized(w)
  {
    LowerWordIsWord(w);
    SplitWord(w);
    assert DropStopwords([w], stop) == [w];
    CleanToSingleWord(stop, w, w);
  }

  /** Different commands sit at different places in the chain. */
  lemma RankInjective(a: Action, b: Action)
    requires Rank(a) == Rank(b)
    ensures a == b
  {
  }

  /**
   * The converse of DetectCommands' contract: a command mentioned in the
   * text with no earlier command mentioned is the one reported.
   */
  lemma FirstMentionedWins(text: string, a: Action)
    requires Mentions(text, a)
    requires forall b :: Rank(b) < Rank(a) ==> !Mentions(text, b)
    ensures DetectCommands(text) == Some(a)
  {
    var r := DetectCommands(text);
    assert r.Some?;
    assert Rank(r.value) <= Rank(a);
    assert Rank(a) <= Rank(r.value);
    RankInjective(r.value, a);
  }

  /** "siguiente" wins over every other command word, "enviar" included. */
  lemma NextBeatsSubmit(text: string)
    requires Contains(text, "siguiente") && Contains(text, "enviar")
    ensures DetectCommands(text) == Some(NextField)
  {
    assert "siguiente" in CommandWords(NextField);
    FirstMentionedWins(text, NextField);
  }

  /** Two stop-word lists that agree on every token give the same filtered tokens. */
  lemma {:induction false} DropStopwordsAgree(words: seq<string>, a: seq<string>, b: seq<string>)
    requires forall i :: 0 <= i < |words| ==> (words[i] in a <==> words[i] in b)
    ensures DropStopwords(words, a) == DropStopwords(words, b)
  {
    if words != [] {
      DropStopwordsAgree(words[1..], a, b);
    }
  }

  /** At most one (field, keyword) pair is selected for a given text. */
  lemma SelectedUnique(table: Table, text: string, i: int, j: int, i': int, j': int)
    requires Selected(table, text, i, j) && Selected(table, text, i', j')
    ensures i == i' && j == j'
  {
  }

  /**
   * A keyword that contains an earlier keyword of the same field is never
   * the one selected: whenever it occurs, the earlier one occurs too.
   */
  lemma ShadowedKeyword(table: Table, text: string, i: nat, j: nat, k: nat)
    requires i < |table| && k < j < |table[i].1|
    requires Contains(table[i].1[j], table[i].1[k])
    ensures !Selected(table, text, i, j)
  {
    if Selected(table, text, i, j) {
      ContainsTransitive(text, table[i].1[j], table[i].1[k]);
    }
  }

  /** "mi nombre es" holds "nombre", listed before it. */
  lemma MiNombreEsShadowed(text: string)
    ensures !Selected(FieldKeywords, text, 0, 3)
  {
    assert MatchAt("mi nombre es", "nombre", 3);
    ShadowedKeyword(FieldKeywords, text, 0, 3, 0);
  }

  /** "apellidos" holds "apellido", listed before it. */
  lemma ApellidosShadowed(text: string)
    ensures !Selected(FieldKeywords, text, 1, 1)
  {
    assert MatchAt("apellidos", "apellido", 0);
    ShadowedKeyword(FieldKeywords, text, 1, 1, 0);
  }

  /** "mis apellidos" holds "apellido", listed before it. */
  lemma MisApellidosShadowed(text: string)
    ensures !Selected(FieldKeywords, text, 1, 2)
  {
    assert MatchAt("mis apellidos", "apellido", 4);
    ShadowedKeyword(FieldKeywords, text, 1, 2, 0);
  }

  /** "mi edad es" holds "edad", listed before it. */
  lemma MiEdadEsShadowed(text: string)
    ensures !Selected(FieldKeywords, text, 2, 3)
  {
    assert MatchAt("mi edad es", "edad", 3);
    ShadowedKeyword(FieldKeywords, text, 2, 3, 0);
  }

  /** "correo electrónico" holds "correo", listed before it. */
  lemma CorreoElectronicoShadowed(text: string)
    ensures !Selected(FieldKeywords, text, 3, 3)
  {
    assert MatchAt("correo electrónico", "correo", 0);
    ShadowedKeyword(FieldKeywords, text, 3, 3, 0);
  }

  /**
   * In the kiosk's table "mi nombre es", "apellidos", "mis apellidos",
   * "mi edad es" and "correo electrónico" can never be the matched keyword.
   */
  lemma UnreachableKeywords(text: string)
    ensures !Selected(FieldKeywords, text, 0, 3)
    ensures !Selected(FieldKeywords, text, 1, 1)
    ensures !Selected(FieldKeywords, text, 1, 2)
    ensures !Selected(FieldKeywords, text, 2, 3)
    ensures !Selected(FieldKeywords, text, 3, 3)
  {
    MiNombreEsShadowed(text);
    ApellidosShadowed(text);
    MisApellidosShadowed(text);
    MiEdadEsShadowed(text);
    CorreoElectronicoShadowed(text);
  }

  /**
   * The `action` entry tells the results apart: the five command names are
   * distinct from each other and from `fill_field` and `unknown`.
   */
  lemma ActionEntryIdentifies(o1: Outcome, o2: Outcome)
    requires ActionEntry(o1).Some? && ActionEntry(o1) == ActionEntry(o2)
    ensures o1.Command? <==> o2.Command?
    ensures o1.Command? ==> o1.action == o2.action
    ensures o1.Detected? ==> o1.fill == o2.fill
  {
  }

  /** The `field` entry of a detected result names its field: distinct fields give distinct entries. */
  lemma FieldEntryIdentifies(o1: Outcome, o2: Outcome)
    requires o1.Detected? && o2.Detected? && FieldEntry(o1) == FieldEntry(o2)
    ensures o1.detected == o2.detected
  {
  }

  /**
   * An auto-detected result carries field `unknown` and action `unknown`
   * together, exactly when no field keyword occurs, and action `fill_field`
   * otherwise.
   */
  lemma AutoDetectEntries(stop: seq<string>, text: string, confidence: real)
    ensures var r := AutoDetectField(stop, text, confidence);
      && (FieldEntry(r) == Some("unknown") <==> NoKeyword(FieldKeywords, text))
      && (ActionEntry(r) == Some("unknown") <==> NoKeyword(FieldKeywords, text))
      && (ActionEntry(r) == Some("fill_field") <==> !NoKeyword(FieldKeywords, text))
  {
  }
}
