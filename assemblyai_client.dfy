/** The `enabled` flag of the two transcription clients. */
module Transcriber {
  import opened Wrappers

  /** The key shipped in the sample configuration; it never enables the client. */
  const Placeholder: string := "tu_api_key_aqui"

  /** `bool(api_key and api_key != "tu_api_key_aqui")` */
  predicate Enabled(apiKey: Option<string>) {
    apiKey.Some? && apiKey.value != "" && apiKey.value != Placeholder
  }

  /** `api_key or os.getenv('ASSEMBLYAI_API_KEY')`: an empty or missing argument falls back to the environment. */
  function ClientKey(given: Option<string>, env: Option<string>): (r: Option<string>)
    ensures Enabled(r) <==> if given.Some? && given.value != "" then Enabled(given) else Enabled(env)
    ensures given.Some? && given.value != "" ==> r == given
  {
    if given.Some? && given.value != "" then given else env
  }

  /** The placeholder and the empty key leave the client disabled, wherever they come from. */
  lemma PlaceholderNeverEnables(env: Option<string>)
    requires env.None? || env.value == "" || env.value == Placeholder
    ensures !Enabled(ClientKey(Some(Placeholder), env))
    ensures !Enabled(ClientKey(Some(""), env))
    ensures !Enabled(ClientKey(None, env))
  {
  }
}

/** The copy of `VoiceFormManager` in assemblyai_client.py, with its ten stop words. */
module ClientVoice {
  import opened Wrappers
  import opened PyStr
  import opened VoiceForm
  import VoiceFormProperties
  import AppVoice

  /** `common_words` of assemblyai_client.py's `clean_text`: app.py's list without "que" and "en". */
  const CommonWords: seq<string> := ["es", "de", "el", "la", "los", "las", "un", "una", "y", "o"]

  /** "que" is not among the ten stop words. */
  lemma QueNotStopWord()
    ensures "que" !in CommonWords
  {
  }

  /** "que" is a lower-case word whose capitalized form is "Que". */
  lemma QueCapitalized()
    ensures LowerWord("que")
    ensures Capitalized("que") == "Que"
  {
    assert UpperChar('q') == 'Q';
  }

  /** Here "que" is not a stop word: it survives and is title-cased. */
  lemma KeepsQue()
    ensures CleanText(CommonWords, "que") == "Que"
  {
    QueNotStopWord();
    QueCapitalized();
    VoiceFormProperties.KeptWordCapitalized(CommonWords, "que");
  }

  /** The two copies disagree on the text "que": "Que" here, "" in app.py's copy. */
  lemma CopiesDifferOnQue()
    ensures CleanText(CommonWords, "que") != CleanText(AppVoice.CommonWords, "que")
  {
    KeepsQue();
    AppVoice.DropsQue();
  }

  /** The two copies clean every text alike unless one of its tokens is "que" or "en". */
  lemma CopiesAgree(text: string)
    requires "que" !in Split(text) && "en" !in Split(text)
    ensures CleanText(CommonWords, text) == CleanText(AppVoice.CommonWords, text)
  {
    var words := Split(text);
    forall i | 0 <= i < |words|
      ensures words[i] in CommonWords <==> words[i] in AppVoice.CommonWords
    {
      assert words[i] in words;
    }
    VoiceFormProperties.DropStopwordsAgree(words, CommonWords, AppVoice.CommonWords);
  }

  /** A disabled client answers with the fixed error whatever was said and whatever field was asked for. */
  lemma DisabledAnswersError(heard: Transcription, currentField: Option<string>)
    ensures ProcessVoiceInput(CommonWords, false, heard, currentField) == Failed("AssemblyAI no disponible")
  {
  }

  /** A named field takes the cleaned text as its value even when the text holds a command word. */
  lemma NamedFieldSkipsCommands(raw: string, confidence: Option<real>, field: string)
    requires field != ""
    ensures ProcessVoiceInput(CommonWords, true, Transcript(raw, confidence), Some(field))
         == Explicit(field, CleanText(CommonWords, Normalize(raw)), confidence.GetOr(1.0), Normalize(raw))
  {
    var r := ProcessVoiceInput(CommonWords, true, Transcript(raw, confidence), Some(field));
    assert r.Explicit?;
  }
}
