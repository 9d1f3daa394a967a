# Attendance kiosk core, in Dafny

A Flask attendance kiosk: a visitor is detected by the camera, fills in a
form (by keyboard or by voice) and the visit is appended to an attendance
store; a companion database layer holds users and attendance rows and can
import the legacy CSV file. This project models and proves the sequential
logic inside it:

- **The voice form mapper** `VoiceFormManager` (`voice_form.dfy`). It turns a
  transcript into a form action: one of five voice commands found by an
  ordered `if`/`elif` chain of keyword lists, a field found by the first
  keyword hit in an ordered field table (with the cleaned text after that
  keyword as the value), or `unknown` with the whole cleaned text. The
  repository holds two copies that differ only in the stop words
  `clean_text` drops, so the mapper takes the list as a parameter;
  `app_voice.dfy` (module `AppVoice`) fixes app.py's twelve words and
  `assemblyai_client.dfy` (module `ClientVoice`) the client's ten.
  Python's `str.split`, `' '.join`, `strip`, `lower`, `title`, `replace`,
  `in` and `find` are modelled in `py_str.dfy` (module `PyStr`).
- **The `enabled` flag** of both transcription clients (module `Transcriber`).
- **The registration flow** of app.py (`registration.dfy`): the
  process-wide `system_state`, `face_detected`, `current_user_data` and
  `last_registered_user` become the fields of class `Kiosk`, each route
  handler a method; `AttendanceManager` keeps its records as a sequence
  instead of a CSV file.
- **The models** of models.py (`models.py` logic in `models.dfy`): role
  predicates, `full_name`, `total_hours` over integer seconds.
- **The CSV migration** `migrate_csv_data` (`migration.dfy`): the row loop
  is the method `Session.MigrateCsvData`, proved equal to the
  specification function `MigrateAll` over in-memory user and attendance
  tables, about which the lemmas are stated.

The transcription result, the clock, `datetime.fromisoformat`, the
presence of the CSV file, the failure of a store write and the failure of
the final commit are parameters of the operations that use them.

## Model

| member | source | states |
|---|---|---|
| PyStr.Split | app.py:379 | (definition, no contract of its own) `str.split()`: the maximal runs of non-whitespace, in order; SplitJoin states its round trip with Join |
| PyStr.Join | app.py:383 | (definition, no contract of its own) `' '.join`: the words separated by single spaces; SplitJoin states that Split undoes it |
| PyStr.SplitJoin | app.py:379-383 | splitting the single-space join of whitespace-free words gives the words back |
| PyStr.Strip | app.py:386 | `strip()`: the result is a slice of the text with only whitespace before and after it, and it neither starts nor ends with whitespace |
| PyStr.StripUnchanged | app.py:386 | a text without whitespace at either end is its own strip |
| PyStr.StripAllSpace | app.py:386 | an all-whitespace text strips to the empty text |
| PyStr.StripLeadingSpace | app.py:386 | a whitespace character before a text without edge whitespace is stripped away |
| PyStr.CapitalizeLowerWord | app.py:383-386 | a lower-case word title-cased, de-punctuated and stripped is the word with its first letter upper-cased |
| PyStr.TitleFromAppend | app.py:383 | title-casing a concatenation title-cases the second part according to the last character of the first |
| PyStr.TitleJoinLower | app.py:383 | title-casing space-joined lower-case words upper-cases the first letter of each word and nothing else |
| PyStr.CapitalizeLowerWords | app.py:383-386 | title-casing, de-punctuating and stripping space-joined lower-case words gives each word capitalized, in order, joined by single spaces |
| PyStr.Title | app.py:383 | `title()` (ASCII and Latin-1 letters): a letter after a letter is lower-cased, any other letter upper-cased, non-letters kept |
| PyStr.TitleLowerWord | app.py:383 | a lower-case word is title-cased by upper-casing its first letter only |
| PyStr.RemoveChar | app.py:386 | `replace(c, '')`: the result holds exactly the characters of the text other than `c` |
| PyStr.RemoveCharAppend | app.py:386 | deleting a character from a concatenation deletes it from each part, in order; with RemoveCharOne this fixes the result |
| PyStr.RemoveCharOne | app.py:386 | a single character is kept exactly when it is not the deleted one |
| PyStr.RemoveAbsent | app.py:386 | replacing a character the text does not hold leaves the text unchanged |
| PyStr.Lower | app.py:304 | `lower()`: each character lower-cased, length kept |
| PyStr.Find | app.py:368 | `find`: -1 exactly when the keyword occurs nowhere; otherwise an occurrence with none before it |
| PyStr.FindFrom | app.py:368 | the search position is the first index at or after the start where the keyword occurs, or -1 |
| PyStr.Contains | app.py:327 | `kw in text` holds exactly when some index starts an occurrence of `kw` |
| PyStr.ContainsTransitive | app.py:342-345 | a text containing a keyword contains every substring of that keyword |
| VoiceForm.DetectCommands | app.py:325-338 | None exactly when no keyword of any of the five commands occurs; otherwise a mentioned command none of whose predecessors in the chain is mentioned |
| VoiceForm.CommandWords | app.py:327-336 | (definition, no contract of its own) the keyword list each of the five commands is tested with; DetectCommands, FirstMentionedWins and NextBeatsSubmit state its use |
| VoiceForm.ActionName | app.py:327-336 | (definition, no contract of its own) the `action` string each command returns; ActionEntryIdentifies states that the five are distinct |
| VoiceFormProperties.FirstMentionedWins | app.py:325-338 | a mentioned command with no earlier command mentioned is the one returned |
| VoiceFormProperties.RankInjective | app.py:327-336 | each command has its own place in the chain |
| VoiceFormProperties.NextBeatsSubmit | app.py:327-332 | a text holding both "siguiente" and "enviar" yields next_field |
| VoiceForm.DropStopwords | app.py:380 | a word survives exactly when it is a token and not a stop word |
| VoiceForm.DropStopwordsAppend | app.py:380 | filtering a concatenation filters each part and keeps their order; with DropStopwordsOne this fixes the result |
| VoiceForm.DropStopwordsOne | app.py:380 | a single token survives exactly when it is not a stop word |
| VoiceForm.CleanText | app.py:375-388 | no '.' and no ',' in the result, no leading or trailing whitespace, and "" when every token is a stop word |
| VoiceForm.ExtractValueAfterKeyword | app.py:365-373 | the text unchanged when the keyword is absent; otherwise the cleaned, stripped suffix after the keyword's first occurrence |
| VoiceForm.FirstKeyword | app.py:343-344 | the first keyword of a list, in list order, that occurs in the text |
| VoiceForm.FirstField | app.py:342-344 | the first (field, keyword) pair, field by field in table order and keyword by keyword within it, whose keyword occurs |
| VoiceForm.AutoDetectField | app.py:340-363 | `unknown` with action unknown and the cleaned whole text exactly when no field keyword occurs; otherwise fill_field for the first field with a hit, valued by the text after its first-hit keyword |
| VoiceForm.Normalize | app.py:304 | the result is a slice of the lower-cased transcript with only whitespace cut from its two ends, and has no edge whitespace |
| VoiceForm.Given | app.py:308 | (definition, no contract of its own) `if current_field:` — a field was named and is not empty; ProcessVoiceInput states which branch it selects |
| VoiceForm.ProcessVoiceInput | app.py:294-323 | disabled client: the fixed error; a transcription error is passed on; a named field gives that field with the cleaned text and skips command detection; otherwise a command wins over field detection, which runs only when no command matched; the confidence defaults to 1.0 |
| VoiceForm.ActionEntry | app.py:310-362 | the result dictionary has an `action` entry exactly for a command and for an auto-detected result, not for a named field or an error |
| VoiceForm.FieldEntry | app.py:310-362 | the result dictionary has a `field` entry exactly for a named field and for an auto-detected result |
| VoiceFormProperties.ActionEntryIdentifies | app.py:327-362 | equal `action` entries mean the same kind of result and, for commands, the same command: the seven action strings are distinct |
| VoiceFormProperties.FieldEntryIdentifies | app.py:286-292 | two auto-detected results with the same `field` entry detected the same field |
| VoiceFormProperties.AutoDetectEntries | app.py:340-363 | an auto-detected result carries field `unknown` and action `unknown` exactly when no field keyword occurs, and action `fill_field` otherwise |
| VoiceFormProperties.DropStopwordsAgree | app.py:380 | two stop-word lists that classify every token alike keep the same tokens |
| VoiceFormProperties.CleanTextOfLowerWords | app.py:375-388 | when every surviving token is a lower-case word, the cleaned text is the surviving tokens, in order, each with its first letter upper-cased, joined by single spaces |
| VoiceFormProperties.StopWordCleansAway | app.py:378-388 | a single word that is a stop word cleans to the empty text |
| VoiceFormProperties.CleanToSingleWord | app.py:379-388 | a text whose only surviving token is a lower-case word cleans to that word with its first letter upper-cased |
| VoiceFormProperties.KeptWordCapitalized | app.py:378-388 | a single lower-case word that is not a stop word cleans to that word with its first letter upper-cased |
| VoiceFormProperties.SelectedUnique | app.py:342-344 | at most one (field, keyword) pair is selected for a text |
| VoiceFormProperties.ShadowedKeyword | app.py:342-344 | a keyword containing an earlier keyword of its field is never selected |
| VoiceFormProperties.UnreachableKeywords | app.py:286-292 | "mi nombre es", "apellidos", "mis apellidos", "mi edad es" and "correo electrónico" are never the matched keyword |
| VoiceForm.FieldKeywords | app.py:286-292 | (definition, no contract of its own) the five fields in insertion order, each with its keywords in order; FirstField, AutoDetectField and UnreachableKeywords state its use |
| VoiceForm.FieldKey | app.py:286-292 | (definition, no contract of its own) the `field` string of each detected field, `unknown` included; FieldEntryIdentifies and AutoDetectEntries state its use |
| AppVoice.CommonWords | app.py:378 | (definition, no contract of its own) app.py's twelve stop words; DropsQue, DropsEn and CopiesDifferOnQue state its effect |
| AppVoice.DropsQue | app.py:378 | app.py's list cleans "que" away to the empty text |
| AppVoice.DropsEn | app.py:378 | app.py's list cleans "en" away to the empty text |
| AppVoice.FindNombre | app.py:368 | "nombre" first occurs at index 3 of "mi nombre es carlos" |
| AppVoice.CleanEsCarlos | app.py:375-388 | cleaning "es carlos" gives "Carlos" |
| AppVoice.CleanJuanCarlos | app.py:375-388 | "juan carlos" cleans to "Juan Carlos" |
| AppVoice.CleanMaria | app.py:383 | "maría" cleans to "María": an accented letter does not start a new word |
| AppVoice.NombreCarlos | app.py:340-373 | "mi nombre es carlos" is detected as field nombre with value "Carlos" and action fill_field |
| ClientVoice.KeepsQue | assemblyai_client.py:205-215 | the client's list keeps "que", which cleans to "Que" |
| ClientVoice.CommonWords | assemblyai_client.py:205 | (definition, no contract of its own) the client's ten stop words, without "que" and "en"; KeepsQue, CopiesDifferOnQue and CopiesAgree state its effect |
| ClientVoice.CopiesDifferOnQue | assemblyai_client.py:205 | the two copies clean the text "que" differently |
| ClientVoice.CopiesAgree | assemblyai_client.py:205 | the two copies clean a text alike whenever none of its tokens is "que" or "en" |
| ClientVoice.DisabledAnswersError | assemblyai_client.py:121-124 | a disabled client answers "AssemblyAI no disponible" whatever was heard and whatever field was named |
| ClientVoice.NamedFieldSkipsCommands | assemblyai_client.py:135-142 | a named field gets the cleaned text as its value, command words notwithstanding |
| Transcriber.Enabled | assemblyai_client.py:14 | (definition, no contract of its own) `enabled`: a key is present, non-empty and not the placeholder; ClientKey and PlaceholderNeverEnables state its consequences |
| Transcriber.ClientKey | assemblyai_client.py:7-14 | the client is enabled exactly when the key it ends up with (the non-empty argument, else the environment's) is non-empty and not the placeholder |
| Transcriber.PlaceholderNeverEnables | assemblyai_client.py:7-14 | the placeholder key, the empty key and no key leave the client disabled |
| Registration.FirstMissing | app.py:528-531 | None exactly when every required field is supplied non-empty; otherwise the first field, in order, that is not |
| Registration.MakeRecord | app.py:135-145 | (definition, no contract of its own) the record from the clock and the posted fields, '' for an absent one; ValidatedRecordNamed and RegisterAttendance state its use |
| Registration.NombreCheckedFirst | app.py:528-531 | a missing nombre is reported whatever else is missing; apellido is reported only when nombre is present |
| Registration.Supplied | app.py:530 | (definition, no contract of its own) `user_data.get(field)` is truthy: present and not empty; FirstMissing states its use |
| Registration.RequiredFields | app.py:528 | (definition, no contract of its own) nombre then apellido; NombreCheckedFirst states the order |
| Registration.MissingMessage | app.py:531 | (definition, no contract of its own) the rejection text naming the missing field; ApiRegister states when it is returned |
| Registration.ValidatedRecordNamed | app.py:131-145 | a record built from validated data has the posted non-empty nombre and apellido |
| Registration.AttendanceManager.constructor | app.py:117-121 | the store opens over the records already there |
| Registration.AttendanceManager.RegisterAttendance | app.py:131-153 | the record carries the clock readings and the posted fields with '' defaults, and is appended as the store's only change |
| Registration.AttendanceManager.GetAllRecords | app.py:155-162 | all stored records, in order |
| Registration.AttendanceManager.HasRecords | app.py:164-166 | true exactly when the store is not empty |
| Registration.Kiosk.constructor | app.py:35-37 | start-up state: WAITING, no user data, no last user, and no face (`face_detected = False`, app.py:401) |
| Registration.Kiosk.Registro | app.py:465-470 | the state becomes WAITING, nothing else changes |
| Registration.Kiosk.DetectarRostro | app.py:472-482 | the state becomes DETECTING_FACE, nothing else changes |
| Registration.Kiosk.ObserveFrame | app.py:412-415 | the detector's verdict is stored only while DETECTING_FACE |
| Registration.Kiosk.Formulario | app.py:484-493 | FACE_DETECTED and the form exactly when a face was seen; otherwise a redirect with the state unchanged |
| Registration.Kiosk.Completado | app.py:495-502 | the state becomes COMPLETED, nothing else changes |
| Registration.Kiosk.ApiRegister | app.py:518-548 | the data is remembered; a missing nombre or apellido (nombre first) is rejected with state, store and last user unchanged; otherwise exactly one record is appended, it becomes the last user and the state ends COMPLETED; a failing store write leaves REGISTERING and no record; the last user is always the newest record |
| Registration.Kiosk.ResetSystem | app.py:669-676 | WAITING, no face, empty user data; the store and the last user stay |
| Models.IsAdmin | models.py:35-36 | (definition, no contract of its own) the role is admin; RoleHierarchy states how it relates to is_manager |
| Models.IsManager | models.py:38-39 | (definition, no contract of its own) the role is admin or manager; RoleHierarchy states it |
| Models.RoleHierarchy | models.py:35-39 | is_admin holds iff the role is admin, is_manager iff admin or manager, so every admin is a manager |
| Models.FullName | models.py:41-43 | the first name (or None), then one space, then the last name (or None) |
| Models.FullNameDeterminesParts | models.py:41-43 | with space-free first names, equal full names mean equal first and last names |
| Models.TotalHours | models.py:71-76 | 0 unless both check-in and check-out are set; otherwise the span in seconds divided by 3600 |
| Models.HoursSign | models.py:71-76 | negative exactly when check-out precedes check-in; never smaller for a later check-out |
| Models.SixtyOneSeconds | models.py:71-76 | 09:00:00 to 09:01:01 is 61/3600 of an hour |
| Migration.FindUser | models.py:133-136 | the first user whose first and last names match, or None when no user matches |
| Migration.MigrateRow | models.py:127-163 | (definition, no contract of its own) one pass of the loop body; RowEffect, ExistingUserReused and NewUserCreated state what it does |
| Migration.MigrateAll | models.py:127-163 | the loop over the rows, one MigrateRow per row in file order; neither table shrinks |
| Migration.RowEffect | models.py:127-163 | a row is migrated exactly when its timestamp parses and it has both names; a skipped row changes nothing; a migrated one appends one record (date of the timestamp, checked in at it, no check-out, present, notes from Notes, user id of the first user with the row's names) and at most one user |
| Migration.ExistingUserReused | models.py:133-138 | a row naming an existing user adds no user and its record points at the first matching user |
| Migration.NewUserCreated | models.py:138-148 | a row naming no user adds one: username lower(Nombre).lower(Apellido), role employee, the row's Correo when that column is present (even empty), else the company address |
| Migration.Username | models.py:140 | (definition, no contract of its own) lower-cased first name, a dot, lower-cased last name; NewUserCreated states its use |
| Migration.EmailFor | models.py:141 | (definition, no contract of its own) the row's Correo when the column is present, else the company address; NewUserCreated states its use |
| Migration.NewUser | models.py:139-145 | (definition, no contract of its own) the employee created for a row; NewUserCreated states each column |
| Migration.Imported | models.py:150-156 | (definition, no contract of its own) the record a row becomes; RowEffect states each column, `user_id` included: the first user with the row's names, the one just created when there was none |
| Migration.Notes | models.py:155 | (definition, no contract of its own) the notes text with the row's Edad, Sexo and Celular, '' for an absent one; RowEffect states that it is the new record's notes |
| Migration.MigrateCounts | models.py:122-163 | the migrated count is the number of importable rows, the attendance table grows by exactly that many and existing rows stay |
| Migration.MigrateWellFormed | models.py:138-158 | ids stay consecutive and every record points at an existing user |
| Migration.MigrateKeepsNamesDistinct | models.py:133-148 | no two users share a (first name, last name) pair, however many rows are migrated |
| Migration.MigrateCoversNames | models.py:133-148 | afterwards every importable row's names belong to a user |
| Migration.NoNewUsers | models.py:133-138 | rows whose names all belong to users create no user |
| Migration.RerunRecords | models.py:133-158 | over a user table extending the users a migration of the same rows ended with, migrating adds no user and appends exactly the records that migration appended |
| Migration.RerunDuplicatesOnlyAttendance | models.py:133-158 | migrating the same rows again adds no user, keeps the existing records and appends a copy of exactly the records the first run appended |
| Migration.ImportedRecordsOpen | models.py:151-157 | every imported record has no check-out and zero hours |
| Migration.Session.MigrateCsvData | models.py:113-170 | no file: nothing; otherwise the loop's tables and count are those of MigrateAll, committed unless the commit fails, when the tables are rolled back |

## Left out

- Camera, face detection, `process_frames`' thread and the frame lock, `generate_frames`: image processing and concurrency; only the effect of one frame on `face_detected` is modelled (`Kiosk.ObserveFrame`).
- The HTTP transcription code of both clients (upload, transcribe, polling with back-off): network I/O and wall-clock time; its result is the parameter `heard`.
- Flask routing, templates, JSON rendering, the CSV export view, `api_face_status`, `api_system_status`, `api_records`, `api_transcribe`'s temporary file: framework glue and views without state changes.
- The CSV file behind `AttendanceManager`: the store is the sequence of records it would hold; header writing and the re-reading of text are not modelled.
- `strftime`, `isoformat`, `fromisoformat`: a record's time strings are the parameter `now`; migration timestamps are integer seconds from a `parse` parameter, and a date is the day number `t / 86400`.
- Registration.Kiosk: each route handler is one atomic step and requests are taken one at a time. The server runs threaded (app.py:709), so other handlers can run against the same globals during `api_register`'s one-second sleep (app.py:535), for example a reset or a second registration. Those interleavings are not captured. Kiosk.Valid's rule that the last registered user is the newest record holds only under this assumption: after two overlapping registrations the source can end with the older record as `last_registered_user`.
- Registration.Kiosk.ApiRegister: a request body that is not a JSON object, and non-string JSON values, are not modelled; the store write's failure is the parameter `storeError`.
- `last_registered_user` starts as an empty dictionary; the model uses `None`.
- Password hashing, `SystemLog.log_action`, the user columns not used by the core: foreign library and database bookkeeping.
- Migration.Session.MigrateCsvData: database constraint failures (duplicate username or e-mail on flush) and the session state they leave, a row whose Nombre or Apellido is absent from a short line (read as `None`), and the printed messages are not modelled; the count the source prints is returned.
- VoiceForm.ProcessVoiceInput: a transcription result whose confidence key is present but null is not modelled (the confidence is a real or absent).
- PyStr.Title and PyStr.Lower: only the letters of ASCII and Latin-1 are cased, so letters of other scripts count as uncased; ß and ÿ keep their case where Python gives "Ss" and "Ÿ", and µ, ª and º are treated as uncased.
- Models.TotalHours: the model gives the exact quotient of the seconds by 3600 over the reals, where Python's float division of `total_seconds()` gives the nearest double.
- Migration.MigrateRow: a new user's id is the table's length plus one, which is the autoincrement key only while no user was ever deleted.
- Migration.Session.MigrateCsvData: two new users whose rows both carry an empty Correo both get the e-mail '', which the unique e-mail column (models.py:12) rejects on flush; in the source the session is then unusable, every later row fails into the `except` and the final commit rolls everything back, while the model, which has no constraints, creates both users and commits.
- check_db.py: database inspection only, no logic.
