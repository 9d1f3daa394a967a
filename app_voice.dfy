/** The copy of `VoiceFormManager` in app.py, with its twelve stop words. */
module AppVoice {
  import opened Wrappers
  import opened PyStr
  import opened VoiceForm
  import VoiceFormProperties

  /** `common_words` of app.py's `clean_text`. */
  const CommonWords: seq<string> := ["es", "de", "el", "la", "los", "las", "un", "una", "y", "o", "que", "en"]

  /** app.py's `clean_text` drops "que" along with the other eleven. */
  lemma DropsQue()
    ensures CleanText(CommonWords, "que") == ""
  {
    LowerWordIsWord("que");
    assert CommonWords[10] == "que";
    VoiceFormProperties.StopWordCleansAway(CommonWords, "que");
  }

  /** app.py's `clean_text` drops "en" along with the other eleven. */
  lemma DropsEn()
    ensures CleanText(CommonWords, "en") == ""
  {
    LowerWordIsWord("en");
    assert CommonWords[11] == "en";
    VoiceFormProperties.StopWordCleansAway(CommonWords, "en");
  }

  /** The first "nombre" in "mi nombre es carlos" starts at position 3. */
  lemma FindNombre()
    ensures Find("mi nombre es carlos", "nombre") == 3
  {
    var text := "mi nombre es carlos";
    assert MatchAt(text, "nombre", 3);
    forall i | 0 <= i < 3 ensures !MatchAt(text, "nombre", i) {
      assert text[i..i + 6][0] == text[i];
    }
  }

  /** Stripping the remainder after "nombre". */
  lemma StripEsCarlos()
    ensures Strip(" es carlos") == "es carlos"
  {
    var t := "es carlos";
    assert " es carlos" == [' '] + t;
    PrintableNotSpace(t[0], 0);
    PrintableNotSpace(t[|t| - 1], 0);
    StripLeadingSpace(' ', t);
  }

  /** Tokens of the remainder after "nombre". */
  lemma SplitEsCarlos()
    ensures Split("es carlos") == ["es", "carlos"]
  {
    var words := ["es", "carlos"];
    LowerWordIsWord(words[0]);
    LowerWordIsWord(words[1]);
    assert Join(words) == "es carlos";
    SplitJoin(words);
  }

  /** Of the tokens "es" and "carlos", only "carlos" survives the filter. */
  lemma DropEs()
    ensures DropStopwords(["es", "carlos"], CommonWords) == ["carlos"]
  {
  }

  /** Only "carlos" survives the filter in "es carlos". */
  lemma KeptOfEsCarlos()
    ensures DropStopwords(Split("es carlos"), CommonWords) == ["carlos"]
  {
    SplitEsCarlos();
    DropEs();
  }

  /** "carlos" is a lower-case word whose capitalized form is "Carlos". */
  lemma CarlosCapitalized()
    ensures LowerWord("carlos")
    ensures Capitalized("carlos") == "Carlos"
  {
    assert UpperChar('c') == 'C';
  }

  /** What follows "nombre" cleans to "Carlos": the stop word "es" goes. */
  lemma CleanEsCarlos()
    ensures CleanText(CommonWords, "es carlos") == "Carlos"
  {
    KeptOfEsCarlos();
    CarlosCapitalized();
    VoiceFormProperties.CleanToSingleWord(CommonWords, "es carlos", "carlos");
  }

  /** In "mi nombre es carlos" the first keyword hit is "nombre", the first keyword of field nombre. */
  lemma FirstFieldNombre()
    ensures FirstField(FieldKeywords, "mi nombre es carlos") == Some((0, 0))
  {
    assert MatchAt("mi nombre es carlos", "nombre", 3);
  }

  /** The value after "nombre" in "mi nombre es carlos" is "Carlos". */
  lemma ValueAfterNombre()
    ensures ExtractValueAfterKeyword(CommonWords, "mi nombre es carlos", "nombre") == "Carlos"
  {
    var text := "mi nombre es carlos";
    assert MatchAt(text, "nombre", 3);
    FindNombre();
    assert text[9..] == " es carlos";
    StripEsCarlos();
    CleanEsCarlos();
  }

  /** "mi nombre es carlos": keyword "nombre" of field nombre; "es" is dropped, "carlos" title-cased. */
  lemma NombreCarlos(confidence: real)
    ensures AutoDetectField(CommonWords, "mi nombre es carlos", confidence)
         == Detected(Nombre, "Carlos", confidence, "mi nombre es carlos", FillField)
  {
    FirstFieldNombre();
    ValueAfterNombre();
  }

  /** "juan" and "carlos" are lower-case words, and neither is a stop word. */
  lemma JuanCarlosWords()
    ensures LowerWords(["juan", "carlos"])
    ensures DropStopwords(["juan", "carlos"], CommonWords) == ["juan", "carlos"]
  {
  }

  /** Tokens of "juan carlos". */
  lemma SplitJuanCarlos()
    ensures Split("juan carlos") == ["juan", "carlos"]
  {
    var words := ["juan", "carlos"];
    LowerWordIsWord(words[0]);
    LowerWordIsWord(words[1]);
    assert Join(words) == "juan carlos";
    SplitJoin(words);
  }

  /** Capitalizing "juan" and "carlos" and joining them gives "Juan Carlos". */
  lemma JoinJuanCarlos()
    ensures Join(CapitalizeAll(["juan", "carlos"])) == "Juan Carlos"
  {
    assert UpperChar('j') == 'J' && UpperChar('c') == 'C';
    assert Capitalized("juan") == "Juan" && Capitalized("carlos") == "Carlos";
    var caps := CapitalizeAll(["juan", "carlos"]);
    assert caps == ["Juan", "Carlos"];
    assert Join(caps) == "Juan" + " " + Join(["Carlos"]);
  }

  /** A two-word name keeps both words, in order, each capitalized. */
  lemma CleanJuanCarlos()
    ensures CleanText(CommonWords, "juan carlos") == "Juan Carlos"
  {
    SplitJuanCarlos();
    JuanCarlosWords();
    VoiceFormProperties.CleanTextOfLowerWords(CommonWords, "juan carlos");
    JoinJuanCarlos();
  }

  /** "maría" is a lower-case word, not a stop word, capitalized as "María". */
  lemma MariaWord()
    ensures LowerWord("maría") && "maría" !in CommonWords
    ensures Capitalized("maría") == "María"
  {
  }

  /** An accented letter inside a name does not start a new word: "maría" cleans to "María". */
  lemma CleanMaria()
    ensures CleanText(CommonWords, "maría") == "María"
  {
    MariaWord();
    VoiceFormProperties.KeptWordCapitalized(CommonWords, "maría");
  }
}
