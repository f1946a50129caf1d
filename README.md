# Medical records: a Dafny model

This project models the core of a small Django application that keeps
patient medical records. The application:

- validates two HTML forms, one to create a record and one to edit it, plus
  an upload form for JSON files;
- stores records in a `MedicalRecord` table;
- optionally writes each record to a JSON file under `medical_json/`;
- accepts uploaded JSON files that become records;
- lets a user edit, delete, list and search records;
- ships a maintenance script that removes duplicate records.

Two records are duplicates when they agree on name, age, gender, height,
weight and diagnosis. Every view checks that key before it writes a row.

The project is laid out by source module:

- `wrappers.dfy`: `Option` and `Result`.
- `text.dfy`: the Python string operations the forms rely on, as functions on
  `seq<char>`. These are `strip`, `split`, `int()`, `lower`, `endswith`,
  `in` and the `os.path.splitext` cut. Each has its defining properties
  proved.
- `models.dfy` (`models.py`):
  - the record and its duplicate key;
  - the `bmi` property;
  - `validate_json_extension`;
  - the generated upload path.
- `forms.dfy` (`forms.py`):
  - every `clean_<field>` method as a function from the field's value to a
    cleaned value or an error;
  - the whole-form `clean()` as the BMI check;
  - the form object itself as a class, `RecordForm`. `FullClean` runs every
    field's checks, collecting errors and cleaned values, and then
    `clean()`.
- `store.dfy`: the persistent state as a class, `Database`. It holds three
  maps:
  - the record table by id;
  - the media directory by path;
  - the `JSONFile` table by id.

  It also states once the ORM queries the views share. These are the
  duplicate lookup, `objects.create` with its column constraints, and
  `order_by('-created_at')`.
- `views.dfy` (`views.py`): each view as a method on the `Database` whose
  contract gives the outcome it reports and the new state of all three maps.
  Search is proved against a specification, `SearchAnswer`, with these
  parts:
  - exactly the matching records;
  - each once;
  - newest first;
  - case-insensitive.
- `dedup.dfy` (`remove_duplicates.py`): the group-by-key / keep-oldest /
  delete-the-rest loop, proved against `Deduplicated`. That predicate says:
  - keys are unique;
  - every key survives;
  - the survivor is the oldest of its group;
  - records with unique keys are untouched;
  - the result is a sub-table of the input.

  Lemmas also give:
  - the record count (one record per distinct key);
  - the deletions per group (group size − 1);
  - idempotence.

Some behaviours of the code are kept as written. Their consequences are
stated in the contracts:

- **Create without vitals.** The create form's heart rate and temperature
  are optional, and its clean methods return `None` when they are absent.
  The table's columns are `NOT NULL`, however. So a create with save location
  `db` or `both` and no heart rate or temperature hits `IntegrityError`, and
  no row is written. With `both`, the JSON file is still written.
  `CreateMedicalRecord` states this through `Insertable`.
- **Blank blood pressure.** Through the forms, a blank reading is stored as
  `''` by the create form, whose field is optional. The edit form refuses it
  as required, because its field comes from a column that may not be blank
  (`BlankBloodPressureThroughForms`). The edit form's `clean_blood_pressure`
  tests its value for truth before stripping it. Called directly on a raw
  blank string, that method reports a missing slash where the create
  method accepts (`BloodPressureFormsDifferOnBlank`). Through the form the
  value is already stripped and the two methods agree
  (`BloodPressureFormsAgree`).
- **Vitals on the two forms.** The create form's heart rate and temperature
  are optional, and a given value must lie in 30..300 or 30..45. The edit
  form's are required columns, and zero passes there. Only the two forms'
  `clean_*` methods accept the same values (`EditDefaultsOnly`); the fields
  in front of them do not (`VitalsFormsDiffer`).
- **`both` as a data source.** `data_source='both'` is written although
  `both` is not among the column's declared choices
  (`CreateSourceUndeclared`). `create()` does not run choice validation.

## Model

| member | source | states |
|---|---|---|
| Text.ParseIntStrip | medical_app/medical_data/forms.py:133-134 | `int()` on a blood-pressure side ignores surrounding white space: it parses the stripped text |
| Text.ParseIntRoundTrip | medical_app/medical_data/forms.py:133-134 | every integer written in decimal is read back by `int()` as itself |
| Text.SplitJoin | medical_app/medical_data/forms.py:129 | `split('/')` loses nothing: joining the parts with `/` gives the reading back |
| Text.StripIdempotent | medical_app/medical_data/forms.py:117 | stripping twice is stripping once |
| Models.GenderDisplay | medical_app/medical_data/models.py:18-21 | `M` shows `Мужской`, `F` shows `Женский`, any other stored value shows itself |
| Models.KeyIgnoresVitals | medical_app/medical_data/views.py:43-51 | blood pressure, heart rate, temperature and symptoms are not part of the duplicate key |
| Models.Bmi | medical_app/medical_data/models.py:44-48 | 0 for a non-positive height; otherwise weight / (height/100)², stated as bmi · height² = weight · 10000 |
| Models.BmiOf | medical_app/medical_data/forms.py:163 | the form's BMI formula, stated as bmi · height² = weight · 10000 for any non-zero height |
| Models.SplitExt | medical_app/medical_data/models.py:8 | `splitext` splits the name into a stem and an extension that concatenate back to it; the extension is empty or starts with a dot |
| Models.ValidateJsonExtensionIff | medical_app/medical_data/models.py:7-10 | a name passes `validate_json_extension` exactly when it ends in `.json` in any case and has a non-dot character before that ending in its last path component |
| Models.ValidateJsonExtensionImpliesEndsWith | medical_app/medical_data/models.py:7-10 | the model validator never accepts what the form's `endswith('.json')` test refuses |
| Models.ValidateJsonExtensionUpperCase | medical_app/medical_data/models.py:9 | `DATA.JSON` is accepted: the comparison is case-insensitive |
| Models.ValidateJsonExtensionOtherExtension | medical_app/medical_data/models.py:9-10 | `data.txt` is refused |
| Models.ValidateJsonExtensionNoExtension | medical_app/medical_data/models.py:8-10 | `data` has no extension and is refused |
| Models.ValidateJsonExtensionHiddenFile | medical_app/medical_data/models.py:8-10 | `.json` ends in `.json` but is a stem without an extension to `splitext`, so it is refused |
| Models.MedicalJsonFilePath | medical_app/medical_data/models.py:12-15 | the stored path lies in `medical_json/` and passes the extension validator |
| Models.MedicalJsonFilePathIgnoresName | medical_app/medical_data/models.py:12-15 | the stored path does not depend on the uploaded file's name |
| Forms.CleanPatientName | medical_app/medical_data/forms.py:116-122 | accepted exactly when the stripped name has at least 2 characters, and then returns it stripped; an empty name and a 1-character name fail with their own errors |
| Forms.CleanPatientNameIdempotent | medical_app/medical_data/forms.py:116-122 | a cleaned name is cleaned to itself and has no surrounding white space |
| Forms.CheckSides | medical_app/medical_data/forms.py:132-142 | both sides are numbers in their ranges with the upper above the lower, or there is an error; a side that is not a number gives the "numbers only" error |
| Forms.CheckSidesOrder | medical_app/medical_data/forms.py:135-140 | the range checks come in source order: upper range, then lower range, then upper above lower |
| Forms.CheckReading | medical_app/medical_data/forms.py:126-143 | a reading without a slash is refused with the format error; an accepted reading is returned unchanged |
| Forms.SplitOneSlash | medical_app/medical_data/forms.py:129-131 | `split('/')` gives two parts exactly when the reading has one slash, and then the parts are the two sides |
| Forms.CheckReadingIff | medical_app/medical_data/forms.py:124-143 | a non-blank reading is accepted exactly when it has one slash between two integers in range with the upper above the lower |
| Forms.CheckReadingManySlashes | medical_app/medical_data/forms.py:129-131 | a reading with two or more slashes is refused with the second format error |
| Forms.CheckReadingAccepts | medical_app/medical_data/forms.py:124-143 | `120/80` is accepted |
| Forms.CheckReadingInverted | medical_app/medical_data/forms.py:139-140 | `80/120` is refused because the upper value is not above the lower |
| Forms.CheckReadingSystolicTooHigh | medical_app/medical_data/forms.py:135-136 | `300/80` is refused on the upper range |
| Forms.CheckReadingLetters | medical_app/medical_data/forms.py:141-142 | `abc/80` is refused as not numeric |
| Forms.CheckReadingMissingLower | medical_app/medical_data/forms.py:141-142 | `120/` is refused as not numeric |
| Forms.CleanBloodPressureIff | medical_app/medical_data/forms.py:124-143 | the create form accepts a blank reading or a valid reading, and nothing else |
| Forms.CleanBloodPressure | medical_app/medical_data/forms.py:124-143 | the create method strips its value; a blank value is accepted as `''` and an accepted value is returned stripped |
| Forms.CleanBloodPressureEdit | medical_app/medical_data/forms.py:222-242 | the edit method accepts the empty string as it is and returns any accepted value stripped |
| Forms.CleanBloodPressureEditIff | medical_app/medical_data/forms.py:222-242 | the edit method accepts exactly the empty string and values whose stripped form is a valid reading |
| Forms.BloodPressureFormsAgree | medical_app/medical_data/forms.py:222-242 | on already-stripped input the edit method's check is the create method's |
| Forms.BloodPressureFormsDifferOnBlank | medical_app/medical_data/forms.py:223-227 | called directly on the raw text of two spaces, the create method accepts it and the edit method reports a missing slash |
| Forms.BlankBloodPressureThroughForms | medical_app/medical_data/forms.py:69-75 | through the forms a blank reading is stored as `''` on create and refused as required on edit |
| Forms.CleanHeartRate | medical_app/medical_data/forms.py:145-149 | passes absent, zero or 30..300 through unchanged; anything else is the heart-rate error |
| Forms.CleanHeartRateEdit | medical_app/medical_data/forms.py:244-248 | same acceptance as the create form's `clean_heart_rate` method, but an absent or zero rate becomes 0 |
| Forms.CleanTemperature | medical_app/medical_data/forms.py:151-155 | passes absent, zero or 30..45 through unchanged; anything else is the temperature error |
| Forms.CleanTemperatureEdit | medical_app/medical_data/forms.py:250-254 | same acceptance as the create form's `clean_temperature` method, but an absent or zero temperature becomes 36.6 |
| Forms.EditDefaultsOnly | medical_app/medical_data/forms.py:145-155 | the two forms' `clean_heart_rate` and `clean_temperature` methods, taken alone, accept the same values and differ only in the defaults the edit methods fill in |
| Forms.BmiCheck | medical_app/medical_data/forms.py:161-167 | too low exactly when the BMI is below 10, too high exactly when above 80, no error exactly when in 10..80 (in cross-multiplied form) |
| Forms.BmiCheckUsesModelBmi | medical_app/medical_data/forms.py:162-167 | for a positive height the form's check passes exactly when the model's `bmi` lies in 10..80 |
| Forms.CleanFile | medical_app/medical_data/forms.py:281-289 | accepted exactly when at most 5 MB and the lower-cased name ends in `.json`; too large is reported first |
| Forms.FileFieldStep | medical_app/medical_data/models.py:52-56 | the `file` column's form field accepts exactly a non-empty file whose name is non-empty and at most 100 characters |
| Forms.UploadFormCheck | medical_app/medical_data/forms.py:270-289 | an accepted upload is the submitted file itself |
| Forms.UploadFormCheckIff | medical_app/medical_data/forms.py:270-289 | the upload form (form field, `clean_file`, then the model validator) accepts exactly non-empty files of at most 5 MB with names of at most 100 characters that pass `validate_json_extension` |
| Forms.UploadBoundaries | medical_app/medical_data/forms.py:283-287 | exactly 5 MB is accepted and one byte more is refused for any name the field admits; an empty `a.json` is refused as empty |
| Forms.UploadHiddenFileRefused | medical_app/medical_data/forms.py:281-289 | a file named `.json` passes `clean_file` but not the model validator |
| Forms.FormFields | medical_app/medical_data/forms.py:12-17 | only the create form has the save-location field |
| Forms.CharStep | medical_app/medical_data/forms.py:19-24 | a text field strips its value and accepts it exactly when it is not blank (or the field is optional), fits the maximum length and holds no NUL character; a value failing only the NUL test gets that error |
| Forms.NullCharacterRefused | medical_app/medical_data/forms.py:19-24 | `ab\0cd` is refused by the patient-name field |
| Forms.ChoiceStep | medical_app/medical_data/forms.py:38-43 | a required choice field accepts exactly a declared choice as submitted, without stripping; an empty value is `Required` |
| Forms.CreateFieldsAccept | medical_app/medical_data/forms.py:12-66 | the create form accepts a declared save location and gender, an age in 0..150, a height in 50..300 and a weight in 1..500, and nothing else |
| Forms.CreateVitalsAccept | medical_app/medical_data/forms.py:77-100 | the create form's heart rate and temperature may be absent; a given value must lie in 30..300 or 30..45 and is kept |
| Forms.EditFieldsAccept | medical_app/medical_data/forms.py:171-220 | the edit form accepts a declared gender, an age in 0..150, a height in 50..300 and a weight in 1..500, and nothing else |
| Forms.EditVitalsAccept | medical_app/medical_data/forms.py:244-254 | the edit form requires heart rate and temperature; zero or 30..300 and zero or 30..45 pass, and a zero temperature becomes 36.6 |
| Forms.VitalsFormsDiffer | medical_app/medical_data/forms.py:77-100 | zero vitals are refused on create and accepted on edit; absent vitals are accepted on create and refused on edit |
| Forms.UnreadableNumberRefused | medical_app/medical_data/forms.py:26-100 | text a number field cannot read is refused as invalid on both forms, for every number field, the optional vitals included |
| Forms.CleanedFields | medical_app/medical_data/forms.py:5-155 | holds exactly the form's fields whose own checks passed |
| Forms.FieldErrors | medical_app/medical_data/forms.py:5-155 | holds exactly the failed fields, each with its one error |
| Forms.BmiFieldError | medical_app/medical_data/forms.py:157-168 | an error is filed only when height and weight both passed, and it is one of the two BMI errors |
| Forms.FormErrors | medical_app/medical_data/forms.py:157-169 | every reported field has exactly one error, and any field but weight reported comes from its own checks |
| Forms.FormCleaned | medical_app/medical_data/forms.py:157-169 | no field is both cleaned and reported as an error |
| Forms.FormErrorsEmptyIff | medical_app/medical_data/forms.py:157-169 | a form is valid exactly when every field passes and the BMI check passes |
| Forms.ValidFormBmiInRange | medical_app/medical_data/forms.py:45-66 | a valid form has height in 50..300, weight in 1..500 and BMI in 10..80 |
| Forms.HeightStepInRange | medical_app/medical_data/forms.py:45-55 | a height that passed its field is a number in 50..300 |
| Forms.WeightStepInRange | medical_app/medical_data/forms.py:57-66 | a weight that passed its field is a number in 1..500 |
| Forms.RecordForm.constructor | medical_app/medical_data/forms.py:5 | a new form has no errors and no cleaned data |
| Forms.RecordForm.AddError | medical_app/medical_data/forms.py:264-266 | appends the error to the field's list and drops the field from the cleaned data |
| Forms.RecordForm.CleanFields | medical_app/medical_data/forms.py:116-155 | the cleaned data and errors after the field checks are `CleanedFields` and `FieldErrors` |
| Forms.RecordForm.Clean | medical_app/medical_data/forms.py:256-268 | files the BMI error against weight, or changes nothing |
| Forms.RecordForm.FullClean | medical_app/medical_data/forms.py:157-169 | the form's final errors and cleaned data are `FormErrors` and `FormCleaned`, and `is_valid()` holds exactly when every field passed its checks and the BMI check found nothing |
| Store.ToRow | medical_app/medical_data/models.py:25-34 | a row is produced exactly when heart rate and temperature are present and age and heart rate are non-negative; it keeps the data's key and values |
| Store.AddKeepsUniqueKeys | medical_app/medical_data/views.py:42-68 | adding a row whose key no other row has keeps the table free of duplicates |
| Store.UniqueKeysIffNoLookupHit | medical_app/medical_data/views.py:237-244 | the duplicate lookup (`filter` on the six key columns, `exclude` of the record) finds nothing for every stored record exactly when the table has no duplicates |
| Store.RemoveKeepsUniqueKeys | medical_app/medical_data/views.py:264 | deleting rows keeps the table free of duplicates |
| Store.InsertNewestOrdered | medical_app/medical_data/views.py:192 | inserting into a newest-first list keeps it newest first |
| Store.InsertNewestDistinct | medical_app/medical_data/views.py:192 | inserting a new id keeps the list free of repeats |
| Store.Database.constructor | medical_app/medical_data/models.py:17-58 | an empty table, media directory and upload table |
| Store.Database.Create | medical_app/medical_data/views.py:58-68 | `objects.create` succeeds exactly when the id is new and the row acceptable, and then adds exactly that row; otherwise nothing changes |
| Store.Database.AllNewestFirst | medical_app/medical_data/views.py:192 | every record of the table exactly once, newest first |
| Views.RecordFileName | medical_app/medical_data/views.py:74-76 | the file is `medical_json/medical_record_<id>.json` |
| Views.RecordFileNameInjective | medical_app/medical_data/views.py:74-76 | two records never share a file name |
| Views.RecordFileNotUploadPath | medical_app/medical_data/views.py:74-76 | a record's file never overwrites an uploaded file's stored path |
| Views.CreateSource | medical_app/medical_data/views.py:61 | the data source is `db` exactly for save location `db` |
| Views.CreateSourceUndeclared | medical_app/medical_data/views.py:61 | every save location but `db` stores a data source the column does not declare |
| Views.CreateMedicalRecord | medical_app/medical_data/views.py:17-92 | invalid form: nothing. `db`/`both` with a duplicate: nothing written. Otherwise it reports which stores were written: the row exactly when the location includes the table and the insert succeeds, and the file exactly when the location includes a file. Nothing else changes, and unique keys stay unique |
| Views.UploadedData | medical_app/medical_data/views.py:109-136 | an upload always stores a heart rate and a temperature, and its key uses `''` for a missing diagnosis |
| Views.UploadDefaults | medical_app/medical_data/views.py:132-136 | missing optional keys become `''`, 0, 36.6, `''`, `''` |
| Views.UploadJsonFile | medical_app/medical_data/views.py:94-153 | form errors change no file. A file that fails to parse or lacks a required key is removed. A duplicate saves nothing. Otherwise the upload row (its own key, a path with a second uuid, its own time) and the stored file are saved and the record is created, or the insert fails. The table changes only on success, and unique keys stay unique |
| Views.Edited | medical_app/medical_data/views.py:249 | the saved record takes the form's values and keeps its creation time and source |
| Views.EditRecord | medical_app/medical_data/views.py:231-258 | unknown id: not found. Saves exactly on a valid POST whose key no other record has, replacing only that record. Reports a duplicate exactly when another record has the key. Files and uploads never change |
| Views.ResaveNotDuplicate | medical_app/medical_data/views.py:237-244 | re-saving a record unchanged is never a duplicate, although the lookup without `exclude` would find the record itself |
| Views.DeleteRecord | medical_app/medical_data/views.py:260-268 | deletes exactly that record and only on POST; an unknown id is not found; nothing else changes |
| Views.ResultOf | medical_app/medical_data/views.py:211-225 | a result carries the record's id and creation time and the gender's display label |
| Views.MatchesIff | medical_app/medical_data/views.py:202-206 | a record matches exactly when the lower-cased query occurs at some position of its lower-cased name, symptoms, diagnosis or blood pressure |
| Views.MatchesIgnoresCase | medical_app/medical_data/views.py:202-206 | a query and its lower-case form match the same records |
| Views.SearchOver | medical_app/medical_data/views.py:207-225 | never more results than listed records (what the results are is stated by the `SearchOver…` lemmas that follow) |
| Views.SearchOverSound | medical_app/medical_data/views.py:202-225 | every result is that of a listed record that matches |
| Views.SearchOverComplete | medical_app/medical_data/views.py:202-225 | every listed record that matches has a result |
| Views.SearchOverOrdered | medical_app/medical_data/views.py:207 | results over a newest-first list are newest first |
| Views.SearchOverDistinct | medical_app/medical_data/views.py:209-225 | no record has two results |
| Views.SearchOverAnswers | medical_app/medical_data/views.py:202-225 | walking all records newest first gives exactly the search answer |
| Views.SearchRecords | medical_app/medical_data/views.py:198-229 | a non-AJAX request or an empty query gives no results; otherwise exactly the matching records, each once, newest first |
| Views.ViewMedicalRecords | medical_app/medical_data/views.py:186-196 | source `file` shows the files; any other source lists every record exactly once, newest first |
| Dedup.Group | medical_app/remove_duplicates.py:24-31 | exactly the ids of the records with the given key |
| Dedup.DuplicateGroups | medical_app/remove_duplicates.py:12-16 | every key two different records share is found |
| Dedup.GroupShared | medical_app/remove_duplicates.py:12-16 | every key found is shared by two different records |
| Dedup.NoGroupsIffUnique | medical_app/remove_duplicates.py:12-16 | there are no groups exactly when the keys are unique |
| Dedup.Oldest | medical_app/remove_duplicates.py:31-34 | the chosen record belongs to the group and none of the group is older |
| Dedup.KeepOne | medical_app/remove_duplicates.py:35-40 | removes exactly the group's records other than the kept one and changes no record |
| Dedup.KeepOneDeletes | medical_app/remove_duplicates.py:35-40 | one group's deletion removes group size − 1 records |
| Dedup.KeepOneHandled | medical_app/remove_duplicates.py:20-40 | handling one more group keeps the loop invariant |
| Dedup.UniqueKeysCount | medical_app/remove_duplicates.py:12-16 | a table with unique keys has one record per distinct key |
| Dedup.HandledAll | medical_app/remove_duplicates.py:20-40 | once every group is handled, the table is deduplicated |
| Dedup.DeduplicatedCount | medical_app/remove_duplicates.py:20-40 | what is left has exactly as many records as the input had distinct keys |
| Dedup.SecondPassFindsNothing | medical_app/remove_duplicates.py:12-18 | run again on its result, the pass finds no duplicate group |
| Dedup.UniqueUntouched | medical_app/remove_duplicates.py:12-20 | a table with unique keys is left as it was |
| Dedup.DeleteOthers | medical_app/remove_duplicates.py:35-40 | the table loses the group's other records; files and uploads are unchanged |
| Dedup.RemoveDuplicates | medical_app/remove_duplicates.py:12-40 | afterwards keys are unique, every key survives in its oldest record, unique-key records are untouched, the result is a sub-table, it has one record per distinct key, and a unique table is unchanged |

## Left out

- HTTP, templates, redirects and `messages` are not modelled. The views take
  the request method, the AJAX header and the `source` parameter as
  arguments. They report an outcome value in place of the page they render.
- The create and edit views receive the form's verdict and cleaned data as
  parameters. The form itself is modelled in `Forms.RecordForm`.
- `uuid4()` and `timezone.now()` are parameters. The create view uses one
  `now` for the JSON `created_at` and the row's default creation time.
- Views.UploadJsonFile does not model the upload's JSON decoding. The
  decoded file is a parameter, `Option<UploadObject>`, where `None` stands
  for a `UnicodeDecodeError` or `JSONDecodeError`. JSON values of the wrong
  type and explicit `null`s are not modelled.
- The media directory is a map from path to content. Reading and writing
  bytes, `os.makedirs` and `json.dump` formatting are not modelled.
- `view_json_files` and `JSONFile.delete` are not modelled; both are file
  I/O.
- `__str__` is not modelled; it only renders.
- Views.EditRecord requires heart rate and temperature in a valid form's
  data. The edit form's required `heart_rate` and `temperature` columns
  guarantee them (`EditVitalsAccept`).
- Views.EditRecord leaves out the model-instance validation a `ModelForm`
  runs after its own checks.
- Forms.RawInput does not model how `IntegerField` and `FloatField` read
  their text (`int()` after Django removes a trailing `.0`, `float()`, and
  localized separators). Each number field's text is given already read:
  blank, a number, or unreadable.
- Forms.CharStep reports one error per field. A value that is both too long
  and holds a NUL character gets only the length error, where Django lists
  both.
- Models.Bmi is exact: it does not model `round(..., 2)` or floating-point
  division. Heights and weights are reals.
- Text.ParseInt accepts an optional sign and ASCII digits, surrounded by
  white space as Python's `str.isspace` defines it. It does not model
  Unicode digits or `_` separators.
- Text.Lower folds ASCII and Russian letters only. `icontains` and `lower()`
  are modelled with that folding.
- `created_at` is an integer timestamp. The `strftime` formatting of
  results is not modelled.
- Concurrent requests are not modelled; the code has no locking. The
  duplicate check and the insert are one step here.
- The script's `django.setup()` and `print` calls are not modelled.
