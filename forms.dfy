/** The validation of the two record forms (create and edit) and of the
    JSON upload form: each field's own check as a pure function from the
    submitted value to a cleaned value or an error, and the form object
    whose cross-field `clean()` files a BMI error against `weight`. */
module Forms {
  import opened Wrappers
  import opened Text
  import opened Models

  /** The reasons a field is rejected. `BelowMin`/`AboveMax` are the
      declared bounds of the create form; `OutOfRange` is the single message
      of the edit form's own range checks. */
  datatype FormError =
    | Required
    | TooLong(limit: nat)
    | NullCharacter
    | InvalidNumber
    | InvalidChoice
    | BelowMin
    | AboveMax
    | OutOfRange
    | NameEmpty
    | NameTooShort
    | BpNoSlash
    | BpBadFormat
    | BpNotNumeric
    | BpSystolicRange
    | BpDiastolicRange
    | BpNotAbove
    | HeartRateRange
    | TemperatureRange
    | BmiTooLow
    | BmiTooHigh
    | NoFile
    | EmptyFile
    | FileTooLarge
    | NotJsonName
    | NotJsonExtension

  // ---------------------------------------------------------------------
  // Patient name

  /** `clean_patient_name` (both forms): the stripped name, which must hold
      at least two characters. */
  function CleanPatientName(value: string): (r: Result<string, FormError>)
    ensures r.Success? <==> |Strip(value)| >= 2
    ensures r.Success? ==> r.value == Strip(value)
    ensures Strip(value) == [] ==> r == Failure(NameEmpty)
    ensures |Strip(value)| == 1 ==> r == Failure(NameTooShort)
  {
    var name := Strip(value);
    if name == [] then Failure(NameEmpty)
    else if |name| < 2 then Failure(NameTooShort)
    else Success(name)
  }

  /** Cleaning an accepted name again gives the same name, and an accepted
      name has no surrounding whitespace. */
  lemma CleanPatientNameIdempotent(value: string)
    requires CleanPatientName(value).Success?
    ensures CleanPatientName(CleanPatientName(value).value) == CleanPatientName(value)
    ensures var name := CleanPatientName(value).value;
      !IsSpace(name[0]) && !IsSpace(name[|name| - 1])
  {
    StripIdempotent(value);
  }

  // ---------------------------------------------------------------------
  // Blood pressure

  /** The two sides of a reading are in range: the upper in 60..250, the
      lower in 40..150, and the upper above the lower. */
  predicate InRanges(systolic: int, diastolic: int) {
    && 60 <= systolic <= 250
    && 40 <= diastolic <= 150
    && systolic > diastolic
  }

  /** The numeric half of `clean_blood_pressure`, on the results of `int()`
      for the two sides: a side that is not a number first, then the upper
      range, the lower range and the order. */
  function CheckSides(systolic: Option<int>, diastolic: Option<int>): (e: Option<FormError>)
    ensures e.None? <==> systolic.Some? && diastolic.Some? && InRanges(systolic.value, diastolic.value)
    ensures (systolic.None? || diastolic.None?) ==> e == Some(BpNotNumeric)
  {
    match (systolic, diastolic)
    case (Some(s), Some(d)) =>
      if s < 60 || s > 250 then Some(BpSystolicRange)
      else if d < 40 || d > 150 then Some(BpDiastolicRange)
      else if s <= d then Some(BpNotAbove)
      else None
    case _ => Some(BpNotNumeric)
  }

  /** With two integers, the upper range is checked first, then the lower
      range, then that the upper is above the lower. */
  lemma CheckSidesOrder(systolic: int, diastolic: int)
    ensures !(60 <= systolic <= 250) ==> CheckSides(Some(systolic), Some(diastolic)) == Some(BpSystolicRange)
    ensures (60 <= systolic <= 250 && !(40 <= diastolic <= 150)) ==>
      CheckSides(Some(systolic), Some(diastolic)) == Some(BpDiastolicRange)
    ensures (60 <= systolic <= 250 && 40 <= diastolic <= 150 && systolic <= diastolic) ==>
      CheckSides(Some(systolic), Some(diastolic)) == Some(BpNotAbove)
  {
  }

  /** The part of `clean_blood_pressure` that checks a non-empty, stripped
      reading: one slash, then the two sides; the first failing check
      decides the error. */
  function CheckReading(reading: string): (r: Result<string, FormError>)
    ensures r.Success? ==> r.value == reading
    ensures '/' !in reading ==> r == Failure(BpNoSlash)
  {
    if '/' !in reading then Failure(BpNoSlash)
    else
      var parts := Split(reading, '/');
      if |parts| != 2 then Failure(BpBadFormat)
      else
        match CheckSides(ParseInt(parts[0]), ParseInt(parts[1]))
        case None => Success(reading)
        case Some(e) => Failure(e)
  }

  /** The text before the first slash of a reading. */
  function SystolicText(reading: string): string
    requires '/' in reading
  {
    reading[..IndexOf(reading, '/')]
  }

  /** The text after the first slash of a reading. */
  function DiastolicText(reading: string): string
    requires '/' in reading
  {
    reading[IndexOf(reading, '/') + 1..]
  }

  /** The reading holds exactly one slash. */
  predicate OneSlash(reading: string) {
    '/' in reading && '/' !in DiastolicText(reading)
  }

  /** A well-formed reading: one slash between two integers that are in
      range. */
  predicate ValidReading(reading: string) {
    && OneSlash(reading)
    && ParseInt(SystolicText(reading)).Some?
    && ParseInt(DiastolicText(reading)).Some?
    && InRanges(ParseInt(SystolicText(reading)).value, ParseInt(DiastolicText(reading)).value)
  }

  /** With one slash, splitting gives the two sides of the first slash. */
  lemma SplitOneSlash(reading: string)
    requires '/' in reading
    ensures |Split(reading, '/')| == 2 <==> OneSlash(reading)
    ensures OneSlash(reading) ==>
      Split(reading, '/') == [SystolicText(reading), DiastolicText(reading)]
  {
    SplitTwo(reading, '/');
  }

  /** A reading with one slash is judged by its two sides alone. */
  lemma CheckReadingSides(reading: string)
    requires OneSlash(reading)
    ensures CheckReading(reading) ==
      match CheckSides(ParseInt(SystolicText(reading)), ParseInt(DiastolicText(reading)))
      case None => Success(reading)
      case Some(e) => Failure(e)
  {
    SplitOneSlash(reading);
  }

  /** A reading passes exactly when it is well formed. */
  lemma CheckReadingIff(reading: string)
    ensures CheckReading(reading).Success? <==> ValidReading(reading)
  {
    if '/' in reading {
      SplitOneSlash(reading);
      if OneSlash(reading) {
        CheckReadingSides(reading);
      }
    }
  }

  /** More than one slash is a format error. */
  lemma CheckReadingManySlashes(reading: string)
    requires '/' in reading && !OneSlash(reading)
    ensures CheckReading(reading) == Failure(BpBadFormat)
  {
    SplitOneSlash(reading);
  }

  /** A reading built from two slash-free sides is judged by those sides. */
  lemma CheckReadingOf(reading: string, systolic: string, diastolic: string)
    requires reading == systolic + "/" + diastolic
    requires '/' !in systolic && '/' !in diastolic
    ensures CheckReading(reading) ==
      match CheckSides(ParseInt(systolic), ParseInt(diastolic))
      case None => Success(reading)
      case Some(e) => Failure(e)
  {
    assert reading[|systolic|] == '/';
    assert IndexOf(reading, '/') == |systolic| by {
      assert '/' !in reading[..|systolic|] by {
        assert reading[..|systolic|] == systolic;
      }
      IndexOfFirst(reading, '/', |systolic|);
    }
    assert SystolicText(reading) == systolic;
    assert DiastolicText(reading) == diastolic;
    CheckReadingSides(reading);
  }

  /** `clean_blood_pressure` of the create form: strip, accept an empty
      value as `''`, check anything else. */
  function CleanBloodPressure(value: string): (r: Result<string, FormError>)
    ensures Strip(value) == [] ==> r == Success("")
    ensures r.Success? ==> r.value == Strip(value)
  {
    var reading := Strip(value);
    if reading == [] then Success(reading) else CheckReading(reading)
  }

  /** `clean_blood_pressure` of the edit form: the emptiness test comes
      before the strip. */
  function CleanBloodPressureEdit(value: string): (r: Result<string, FormError>)
    ensures value == [] ==> r == Success("")
    ensures r.Success? ==> r.value == Strip(value)
  {
    if value == [] then Success(value) else CheckReading(Strip(value))
  }

  /** The create form accepts a blood pressure exactly when it is blank or a
      well-formed reading. */
  lemma CleanBloodPressureIff(value: string)
    ensures CleanBloodPressure(value).Success? <==>
      Strip(value) == [] || ValidReading(Strip(value))
  {
    CheckReadingIff(Strip(value));
  }

  /** Called on its own, the edit method accepts the empty string and any
      value whose stripped form is a well-formed reading, and nothing else;
      a blank but non-empty value is refused. */
  lemma CleanBloodPressureEditIff(value: string)
    ensures CleanBloodPressureEdit(value).Success? <==>
      value == [] || ValidReading(Strip(value))
  {
    CheckReadingIff(Strip(value));
  }

  /** On a value the form field has already stripped, the two forms agree. */
  lemma BloodPressureFormsAgree(value: string)
    requires Strip(value) == value
    ensures CleanBloodPressure(value) == CleanBloodPressureEdit(value)
  {
  }

  /** Called directly on a raw blank value the two methods differ: the
      create method accepts it, the edit method reports a missing slash. */
  lemma BloodPressureFormsDifferOnBlank()
    ensures CleanBloodPressure("  ") == Success("")
    ensures CleanBloodPressureEdit("  ") == Failure(BpNoSlash)
  {
    assert Strip("  ") == [] by {
      assert StripLeft("  ") == StripLeft(" ");
    }
  }

  /** A run of digits reads as the integer it spells. */
  lemma ParseDigits(s: string, n: nat)
    requires s == NatToString(n)
    ensures ParseInt(s) == Some(n)
  {
    ParseIntRoundTrip(n);
  }

  /** The readings of the sides used in the examples below. */
  lemma ParseExamples()
    ensures ParseInt("120") == Some(120) && ParseInt("80") == Some(80)
    ensures ParseInt("300") == Some(300)
    ensures ParseInt("abc") == None && ParseInt("") == None
  {
    assert ParseInt("120") == Some(120) by { ParseDigits("120", 120); }
    assert ParseInt("80") == Some(80) by { ParseDigits("80", 80); }
    assert ParseInt("300") == Some(300) by { ParseDigits("300", 300); }
    assert !IsDigit('a');
  }

  /** `120/80` passes. */
  lemma CheckReadingAccepts()
    ensures CheckReading("120/80") == Success("120/80")
  {
    ParseExamples();
    CheckReadingOf("120/80", "120", "80");
  }

  /** `80/120` fails: the upper is not above the lower. */
  lemma CheckReadingInverted()
    ensures CheckReading("80/120") == Failure(BpNotAbove)
  {
    ParseExamples();
    CheckReadingOf("80/120", "80", "120");
  }

  /** `300/80` fails: the upper is out of range. */
  lemma CheckReadingSystolicTooHigh()
    ensures CheckReading("300/80") == Failure(BpSystolicRange)
  {
    ParseExamples();
    CheckReadingOf("300/80", "300", "80");
  }

  /** `abc/80` fails: the upper is not a number. */
  lemma CheckReadingLetters()
    ensures CheckReading("abc/80") == Failure(BpNotNumeric)
  {
    ParseExamples();
    CheckReadingOf("abc/80", "abc", "80");
  }

  /** `120/` fails: the lower is empty, which is not a number. */
  lemma CheckReadingMissingLower()
    ensures CheckReading("120/") == Failure(BpNotNumeric)
  {
    ParseExamples();
    CheckReadingOf("120/", "120", "");
  }

  // ---------------------------------------------------------------------
  // Numeric ranges

  /** A bounds check on an integer: below the minimum reports `below`,
      above the maximum reports `above`. */
  function CheckInt(x: int, lo: int, hi: int, below: FormError, above: FormError)
    : (r: Result<int, FormError>)
    ensures r.Success? <==> lo <= x <= hi
    ensures r.Success? ==> r.value == x
    ensures x < lo ==> r == Failure(below)
    ensures lo <= x && hi < x ==> r == Failure(above)
  {
    if x < lo then Failure(below) else if x > hi then Failure(above) else Success(x)
  }

  /** A bounds check on a real number, as `CheckInt` on an integer: the
      `FloatField` bounds beside the `IntegerField` ones. Dafny's `int` and
      `real` share no ordered type a single generic check could range over,
      so the check is written once per type. */
  function CheckReal(x: real, lo: real, hi: real, below: FormError, above: FormError)
    : (r: Result<real, FormError>)
    ensures r.Success? <==> lo <= x <= hi
    ensures r.Success? ==> r.value == x
    ensures x < lo ==> r == Failure(below)
    ensures lo <= x && hi < x ==> r == Failure(above)
  {
    if x < lo then Failure(below) else if x > hi then Failure(above) else Success(x)
  }

  /** `clean_heart_rate` of the create form: a present, non-zero rate
      outside 30..300 is rejected; the value is returned as given. */
  function CleanHeartRate(rate: Option<int>): (r: Result<Option<int>, FormError>)
    ensures r.Success? <==> rate.None? || rate.value == 0 || 30 <= rate.value <= 300
    ensures r.Success? ==> r.value == rate
    ensures r.Failure? ==> r.error == HeartRateRange
  {
    if rate.Some? && rate.value != 0 && (rate.value < 30 || rate.value > 300) then
      Failure(HeartRateRange)
    else Success(rate)
  }

  /** `clean_heart_rate` of the edit form: the same check, and an absent or
      zero rate becomes 0. */
  function CleanHeartRateEdit(rate: Option<int>): (r: Result<int, FormError>)
    ensures r.Success? <==> rate.None? || rate.value == 0 || 30 <= rate.value <= 300
    ensures r.Success? ==> r.value == rate.GetOr(0)
    ensures r.Failure? ==> r.error == HeartRateRange
  {
    if rate.Some? && rate.value != 0 && (rate.value < 30 || rate.value > 300) then
      Failure(HeartRateRange)
    else if rate.Some? && rate.value != 0 then Success(rate.value)
    else Success(0)
  }

  /** `clean_temperature` of the create form: a present, non-zero
      temperature outside 30..45 is rejected; the value is returned as given. */
  function CleanTemperature(t: Option<real>): (r: Result<Option<real>, FormError>)
    ensures r.Success? <==> t.None? || t.value == 0.0 || 30.0 <= t.value <= 45.0
    ensures r.Success? ==> r.value == t
    ensures r.Failure? ==> r.error == TemperatureRange
  {
    if t.Some? && t.value != 0.0 && (t.value < 30.0 || t.value > 45.0) then
      Failure(TemperatureRange)
    else Success(t)
  }

  /** The temperature the edit form stores when none (or zero) is given. */
  const DEFAULT_TEMPERATURE: real := 36.6

  /** `clean_temperature` of the edit form: the same check, and an absent
      or zero temperature becomes 36.6. */
  function CleanTemperatureEdit(t: Option<real>): (r: Result<real, FormError>)
    ensures r.Success? <==> t.None? || t.value == 0.0 || 30.0 <= t.value <= 45.0
    ensures r.Success? ==> r.value == (if t.None? || t.value == 0.0 then DEFAULT_TEMPERATURE else t.value)
    ensures r.Failure? ==> r.error == TemperatureRange
  {
    if t.Some? && t.value != 0.0 && (t.value < 30.0 || t.value > 45.0) then
      Failure(TemperatureRange)
    else if t.Some? && t.value != 0.0 then Success(t.value)
    else Success(DEFAULT_TEMPERATURE)
  }

  /** The edit form's checks accept exactly what the create form's accept,
      and differ only in filling in the defaults. */
  lemma EditDefaultsOnly(rate: Option<int>, t: Option<real>)
    ensures CleanHeartRateEdit(rate).Success? == CleanHeartRate(rate).Success?
    ensures CleanHeartRate(rate).Success? ==>
      CleanHeartRateEdit(rate).value == CleanHeartRate(rate).value.GetOr(0)
    ensures CleanTemperatureEdit(t).Success? == CleanTemperature(t).Success?
    ensures (CleanTemperature(t).Success? && t.Some? && t.value != 0.0) ==>
      CleanTemperatureEdit(t).value == t.value
  {
  }

  // ---------------------------------------------------------------------
  // BMI

  const BMI_MIN: real := 10.0
  const BMI_MAX: real := 80.0

  /** The cross-field BMI check of `clean()`: too low below 10, too high
      above 80, stated without division. The formula has no guard, so a zero
      height is excluded (the caller tests the height for truth first). */
  function BmiCheck(height: real, weight: real): (e: Option<FormError>)
    requires height != 0.0
    ensures e == Some(BmiTooLow) <==> weight * 10000.0 < BMI_MIN * Square(height)
    ensures e == Some(BmiTooHigh) <==> BMI_MAX * Square(height) < weight * 10000.0
    ensures e.None? <==>
      BMI_MIN * Square(height) <= weight * 10000.0 <= BMI_MAX * Square(height)
  {
    SquarePositive(height);
    CompareScaled(BmiOf(height, weight), Square(height), weight * 10000.0, BMI_MIN);
    CompareScaled(BmiOf(height, weight), Square(height), weight * 10000.0, BMI_MAX);
    if BmiOf(height, weight) < BMI_MIN then Some(BmiTooLow)
    else if BmiOf(height, weight) > BMI_MAX then Some(BmiTooHigh)
    else None
  }

  /** For a positive height the form checks the model's `bmi` property. */
  lemma BmiCheckUsesModelBmi(r: MedicalRecord)
    requires r.height > 0.0
    ensures BmiCheck(r.height, r.weight).None? <==> BMI_MIN <= Bmi(r) <= BMI_MAX
  {
    SquarePositive(r.height);
    CompareScaled(Bmi(r), Square(r.height), r.weight * 10000.0, BMI_MIN);
    CompareScaled(Bmi(r), Square(r.height), r.weight * 10000.0, BMI_MAX);
  }

  // ---------------------------------------------------------------------
  // Upload

  /** The largest upload accepted, in bytes (5 MiB). */
  const MAX_UPLOAD_SIZE: int := 5 * 1024 * 1024

  /** An uploaded file as the upload form sees it. */
  datatype UploadedFile = UploadedFile(name: string, size: nat)

  /** `JSONUploadForm.clean_file`: the size is checked before the name, and
      the name must end in `.json` in any case. */
  function CleanFile(file: UploadedFile): (r: Result<UploadedFile, FormError>)
    ensures r.Success? <==> file.size <= MAX_UPLOAD_SIZE && EndsWith(Lower(file.name), ".json")
    ensures r.Success? ==> r.value == file
    ensures file.size > MAX_UPLOAD_SIZE ==> r == Failure(FileTooLarge)
  {
    if file.size > MAX_UPLOAD_SIZE then Failure(FileTooLarge)
    else if !EndsWith(Lower(file.name), ".json") then Failure(NotJsonName)
    else Success(file)
  }

  /** The `max_length` of the model's `file` column (Django's default for a
      `FileField`), which the form field applies to the uploaded name. */
  const MAX_FILE_NAME: nat := 100

  /** The form field Django derives from the `file` column: a name longer
      than the column allows is refused first, then a missing name, then an
      empty file. */
  function FileFieldStep(file: UploadedFile): (r: Result<UploadedFile, FormError>)
    ensures r.Success? <==> 0 < |file.name| <= MAX_FILE_NAME && 0 < file.size
    ensures r.Success? ==> r.value == file
    ensures |file.name| > MAX_FILE_NAME ==> r == Failure(TooLong(MAX_FILE_NAME))
  {
    if |file.name| > MAX_FILE_NAME then Failure(TooLong(MAX_FILE_NAME))
    else if file.name == [] then Failure(NoFile)
    else if file.size == 0 then Failure(EmptyFile)
    else Success(file)
  }

  /** The whole upload form: the form field, then `clean_file`, then the
      model field's `validate_json_extension` on the same name. */
  function UploadFormCheck(file: UploadedFile): (r: Result<UploadedFile, FormError>)
    ensures r.Success? ==> r.value == file
  {
    match Then(FileFieldStep(file), CleanFile)
    case Failure(e) => Failure(e)
    case Success(f) =>
      if ValidateJsonExtension(f.name) then Success(f) else Failure(NotJsonExtension)
  }

  /** The upload form accepts a file exactly when it is not empty and at
      most 5 MiB, its name is at most 100 characters and `splitext` finds a
      `.json` extension; the `endswith` test is implied. */
  lemma UploadFormCheckIff(file: UploadedFile)
    ensures UploadFormCheck(file).Success? <==>
      && 0 < file.size <= MAX_UPLOAD_SIZE
      && |file.name| <= MAX_FILE_NAME
      && ValidateJsonExtension(file.name)
  {
    if ValidateJsonExtension(file.name) {
      ValidateJsonExtensionImpliesEndsWith(file.name);
    }
  }

  /** A file of exactly 5 MiB is not too large; one byte more is, whatever
      its name. An empty file is refused before `clean_file` runs. */
  lemma UploadBoundaries(name: string)
    ensures UploadFormCheck(UploadedFile("a.json", MAX_UPLOAD_SIZE)).Success?
    ensures |name| <= MAX_FILE_NAME && name != [] ==>
      UploadFormCheck(UploadedFile(name, MAX_UPLOAD_SIZE + 1)) == Failure(FileTooLarge)
    ensures UploadFormCheck(UploadedFile("a.json", 0)) == Failure(EmptyFile)
  {
    assert Lower("a.json")[1..] == ".json";
    assert StemAt("a.json", 0);
    ValidateJsonExtensionIff("a.json");
  }

  /** A file named `.json` passes `clean_file` and is then rejected by the
      extension validator. */
  lemma UploadHiddenFileRefused()
    ensures CleanFile(UploadedFile(".json", 1)).Success?
    ensures UploadFormCheck(UploadedFile(".json", 1)) == Failure(NotJsonExtension)
  {
    ValidateJsonExtensionHiddenFile();
  }

  // ---------------------------------------------------------------------
  // The record forms

  /** The fields of the two record forms; `SaveLocationField` belongs to the
      create form only. */
  datatype Field =
    | SaveLocationField
    | PatientName
    | Age
    | Gender
    | Height
    | Weight
    | BloodPressure
    | HeartRate
    | Temperature
    | Symptoms
    | Diagnosis

  /** A cleaned field value; `Null` is an optional number left empty. */
  datatype Value = Text(s: string) | Int(i: int) | Real(x: real) | Null

  /** What a number field makes of its submitted text: nothing was entered,
      the text reads as a number, or it does not (`IntegerField` and
      `FloatField` then refuse it as invalid). */
  datatype NumberEntry<T> = Blank | Given(value: T) | Unreadable

  /** A submission as the form fields receive it: text as typed, and for
      each number field the outcome of reading its text. */
  datatype RawInput = RawInput(
    saveLocation: string,
    patientName: string,
    age: NumberEntry<int>,
    gender: string,
    height: NumberEntry<real>,
    weight: NumberEntry<real>,
    bloodPressure: string,
    heartRate: NumberEntry<int>,
    temperature: NumberEntry<real>,
    symptoms: string,
    diagnosis: string)

  /** The save-location choices of the create form. */
  const SAVE_CHOICES: set<string> := {"db", "file", "both"}

  function FormFields(isEdit: bool): (fields: set<Field>)
    ensures SaveLocationField in fields <==> !isEdit
  {
    var common := {PatientName, Age, Gender, Height, Weight, BloodPressure,
                   HeartRate, Temperature, Symptoms, Diagnosis};
    if isEdit then common else common + {SaveLocationField}
  }

  /** A text field's own cleaning: strip, then the required test, then the
      validators, which a blank value skips: the length limit, then the
      refusal of NUL characters. */
  function CharStep(value: string, required: bool, maxLength: Option<nat>)
    : (r: Result<string, FormError>)
    ensures r.Success? ==> r.value == Strip(value)
    ensures r.Success? <==>
      && (Strip(value) == [] ==> !required)
      && (Strip(value) != [] && maxLength.Some? ==> |Strip(value)| <= maxLength.value)
      && '\0' !in Strip(value)
    ensures (Strip(value) != [] && (maxLength.None? || |Strip(value)| <= maxLength.value)
             && '\0' in Strip(value)) ==> r == Failure(NullCharacter)
  {
    var s := Strip(value);
    if s == [] then (if required then Failure(Required) else Success(s))
    else if maxLength.Some? && |s| > maxLength.value then Failure(TooLong(maxLength.value))
    else if '\0' in s then Failure(NullCharacter)
    else Success(s)
  }

  /** A required choice field: the submitted value, unstripped, must be
      one of the choices; an empty value is `Required`. */
  function ChoiceStep(value: string, choices: set<string>): (r: Result<string, FormError>)
    ensures r.Success? <==> value in choices && value != []
    ensures r.Success? ==> r.value == value
    ensures value == [] ==> r == Failure(Required)
  {
    if value == [] then Failure(Required)
    else if value !in choices then Failure(InvalidChoice)
    else Success(value)
  }

  /** Chain a `clean_<field>` method after the field's own cleaning. */
  function Then<T, U>(r: Result<T, FormError>, f: T -> Result<U, FormError>): Result<U, FormError> {
    match r
    case Failure(e) => Failure(e)
    case Success(v) => f(v)
  }

  function AsText(r: Result<string, FormError>): Result<Value, FormError> {
    match r
    case Failure(e) => Failure(e)
    case Success(s) => Success(Text(s))
  }

  function AsInt(r: Result<int, FormError>): Result<Value, FormError> {
    match r
    case Failure(e) => Failure(e)
    case Success(i) => Success(Int(i))
  }

  function AsReal(r: Result<real, FormError>): Result<Value, FormError> {
    match r
    case Failure(e) => Failure(e)
    case Success(x) => Success(Real(x))
  }

  function AsOptionalInt(r: Result<Option<int>, FormError>): Result<Value, FormError> {
    match r
    case Failure(e) => Failure(e)
    case Success(v) => Success(if v.Some? then Int(v.value) else Null)
  }

  function AsOptionalReal(r: Result<Option<real>, FormError>): Result<Value, FormError> {
    match r
    case Failure(e) => Failure(e)
    case Success(v) => Success(if v.Some? then Real(v.value) else Null)
  }

  /** The minimum of 0 of a positive-integer column's form field. */
  function CheckNonNegative(x: int): (r: Result<int, FormError>)
    ensures r.Success? <==> 0 <= x
    ensures r.Success? ==> r.value == x
  {
    if x < 0 then Failure(BelowMin) else Success(x)
  }

  /** A required number: empty is `Required`, unreadable text is
      `InvalidNumber`, otherwise `check` decides. */
  function RequiredInt(v: NumberEntry<int>, check: int -> Result<int, FormError>): Result<Value, FormError> {
    match v
    case Blank => Failure(Required)
    case Unreadable => Failure(InvalidNumber)
    case Given(x) => AsInt(check(x))
  }

  function RequiredReal(v: NumberEntry<real>, check: real -> Result<real, FormError>): Result<Value, FormError> {
    match v
    case Blank => Failure(Required)
    case Unreadable => Failure(InvalidNumber)
    case Given(x) => AsReal(check(x))
  }

  /** One field of the create form (`MedicalRecordForm`): the declared
      field, then its `clean_<field>` method where it has one. */
  function CreateFieldStep(f: Field, raw: RawInput): Result<Value, FormError> {
    match f
    case SaveLocationField => AsText(ChoiceStep(raw.saveLocation, SAVE_CHOICES))
    case PatientName =>
      AsText(Then(CharStep(raw.patientName, true, Some(100)), CleanPatientName))
    case Age => RequiredInt(raw.age, a => CheckInt(a, 0, 150, BelowMin, AboveMax))
    case Gender => AsText(ChoiceStep(raw.gender, GENDER_CHOICES))
    case Height => RequiredReal(raw.height, h => CheckReal(h, 50.0, 300.0, BelowMin, AboveMax))
    case Weight => RequiredReal(raw.weight, w => CheckReal(w, 1.0, 500.0, BelowMin, AboveMax))
    case BloodPressure =>
      AsText(Then(CharStep(raw.bloodPressure, false, Some(10)), CleanBloodPressure))
    case HeartRate =>
      (match raw.heartRate
       case Blank => AsOptionalInt(CleanHeartRate(None))
       case Unreadable => Failure(InvalidNumber)
       case Given(rate) =>
         AsOptionalInt(Then(CheckInt(rate, 30, 300, BelowMin, AboveMax), x => CleanHeartRate(Some(x)))))
    case Temperature =>
      (match raw.temperature
       case Blank => AsOptionalReal(CleanTemperature(None))
       case Unreadable => Failure(InvalidNumber)
       case Given(t) =>
         AsOptionalReal(Then(CheckReal(t, 30.0, 45.0, BelowMin, AboveMax), x => CleanTemperature(Some(x)))))
    case Symptoms => AsText(CharStep(raw.symptoms, false, Some(1000)))
    case Diagnosis => AsText(CharStep(raw.diagnosis, false, Some(200)))
  }

  /** One field of the edit form (`MedicalRecordEditForm`): the form field
      Django derives from the model column (every column is required; the
      positive-integer columns have a minimum of 0), then its
      `clean_<field>` method. */
  function EditFieldStep(f: Field, raw: RawInput): Result<Value, FormError> {
    match f
    case SaveLocationField => Failure(Required)
    case PatientName =>
      AsText(Then(CharStep(raw.patientName, true, Some(100)), CleanPatientName))
    case Age =>
      RequiredInt(raw.age, a => Then(CheckNonNegative(a),
                                     x => CheckInt(x, 0, 150, OutOfRange, OutOfRange)))
    case Gender => AsText(ChoiceStep(raw.gender, GENDER_CHOICES))
    case Height => RequiredReal(raw.height, h => CheckReal(h, 50.0, 300.0, OutOfRange, OutOfRange))
    case Weight => RequiredReal(raw.weight, w => CheckReal(w, 1.0, 500.0, OutOfRange, OutOfRange))
    case BloodPressure =>
      AsText(Then(CharStep(raw.bloodPressure, true, Some(10)), CleanBloodPressureEdit))
    case HeartRate =>
      RequiredInt(raw.heartRate, x => Then(CheckNonNegative(x),
                                           y => CleanHeartRateEdit(Some(y))))
    case Temperature => RequiredReal(raw.temperature, t => CleanTemperatureEdit(Some(t)))
    case Symptoms => AsText(CharStep(raw.symptoms, true, None))
    case Diagnosis => AsText(CharStep(raw.diagnosis, true, Some(200)))
  }

  /** What the create form's choice and measurement fields accept. */
  lemma CreateFieldsAccept(raw: RawInput)
    ensures CreateFieldStep(SaveLocationField, raw).Success? <==> raw.saveLocation in SAVE_CHOICES
    ensures CreateFieldStep(Gender, raw).Success? <==> raw.gender in GENDER_CHOICES
    ensures CreateFieldStep(Age, raw).Success? <==> raw.age.Given? && 0 <= raw.age.value <= 150
    ensures CreateFieldStep(Height, raw).Success? <==>
      raw.height.Given? && 50.0 <= raw.height.value <= 300.0
    ensures CreateFieldStep(Weight, raw).Success? <==>
      raw.weight.Given? && 1.0 <= raw.weight.value <= 500.0
  {
  }

  /** The create form's vitals are optional; a rate or temperature that is
      given must lie in 30..300 or 30..45, so the zero its `clean_*` method
      would let through is refused by the field's own minimum first. */
  lemma CreateVitalsAccept(raw: RawInput)
    ensures CreateFieldStep(HeartRate, raw).Success? <==>
      raw.heartRate.Blank? || (raw.heartRate.Given? && 30 <= raw.heartRate.value <= 300)
    ensures CreateFieldStep(HeartRate, raw).Success? ==>
      CreateFieldStep(HeartRate, raw).value == (if raw.heartRate.Blank? then Null else Int(raw.heartRate.value))
    ensures CreateFieldStep(Temperature, raw).Success? <==>
      raw.temperature.Blank? || (raw.temperature.Given? && 30.0 <= raw.temperature.value <= 45.0)
    ensures CreateFieldStep(Temperature, raw).Success? ==>
      CreateFieldStep(Temperature, raw).value ==
        (if raw.temperature.Blank? then Null else Real(raw.temperature.value))
  {
  }

  /** What the edit form's choice and measurement fields accept: the same
      values as the create form, with the edit form's own error. */
  lemma EditFieldsAccept(raw: RawInput)
    ensures EditFieldStep(Gender, raw).Success? <==> raw.gender in GENDER_CHOICES
    ensures EditFieldStep(Age, raw).Success? <==> raw.age.Given? && 0 <= raw.age.value <= 150
    ensures EditFieldStep(Height, raw).Success? <==>
      raw.height.Given? && 50.0 <= raw.height.value <= 300.0
    ensures EditFieldStep(Weight, raw).Success? <==>
      raw.weight.Given? && 1.0 <= raw.weight.value <= 500.0
  {
  }

  /** The edit form's vitals are required columns; zero passes and a zero
      temperature is stored as 36.6. */
  lemma EditVitalsAccept(raw: RawInput)
    ensures EditFieldStep(HeartRate, raw).Success? <==>
      raw.heartRate.Given? && (raw.heartRate.value == 0 || 30 <= raw.heartRate.value <= 300)
    ensures EditFieldStep(HeartRate, raw).Success? ==>
      EditFieldStep(HeartRate, raw).value == Int(raw.heartRate.value)
    ensures EditFieldStep(Temperature, raw).Success? <==>
      raw.temperature.Given? && (raw.temperature.value == 0.0 || 30.0 <= raw.temperature.value <= 45.0)
    ensures EditFieldStep(Temperature, raw).Success? ==>
      EditFieldStep(Temperature, raw).value ==
        Real(if raw.temperature.value == 0.0 then DEFAULT_TEMPERATURE else raw.temperature.value)
  {
  }

  /** Through the forms, zero vitals are refused on create and accepted on
      edit, and absent vitals are accepted on create and refused on edit. */
  lemma VitalsFormsDiffer(raw: RawInput)
    ensures raw.heartRate == Given(0) ==>
      CreateFieldStep(HeartRate, raw) == Failure(BelowMin) &&
      EditFieldStep(HeartRate, raw) == Success(Int(0))
    ensures raw.temperature == Given(0.0) ==>
      CreateFieldStep(Temperature, raw) == Failure(BelowMin) &&
      EditFieldStep(Temperature, raw) == Success(Real(DEFAULT_TEMPERATURE))
    ensures raw.heartRate.Blank? ==>
      CreateFieldStep(HeartRate, raw) == Success(Null) &&
      EditFieldStep(HeartRate, raw) == Failure(Required)
    ensures raw.temperature.Blank? ==>
      CreateFieldStep(Temperature, raw) == Success(Null) &&
      EditFieldStep(Temperature, raw) == Failure(Required)
  {
  }

  /** Text a number field cannot read is refused on both forms, even in
      the create form's optional vitals. */
  lemma UnreadableNumberRefused(raw: RawInput, isEdit: bool)
    ensures raw.age.Unreadable? ==> FieldStep(Age, raw, isEdit) == Failure(InvalidNumber)
    ensures raw.height.Unreadable? ==> FieldStep(Height, raw, isEdit) == Failure(InvalidNumber)
    ensures raw.weight.Unreadable? ==> FieldStep(Weight, raw, isEdit) == Failure(InvalidNumber)
    ensures raw.heartRate.Unreadable? ==> FieldStep(HeartRate, raw, isEdit) == Failure(InvalidNumber)
    ensures raw.temperature.Unreadable? ==> FieldStep(Temperature, raw, isEdit) == Failure(InvalidNumber)
  {
  }

  /** A text field refuses a value with a NUL character inside it. */
  lemma NullCharacterRefused()
    ensures CharStep("ab\0cd", true, Some(100)) == Failure(NullCharacter)
  {
    StripTrimmed("ab\0cd");
    assert "ab\0cd"[2] == '\0';
  }

  /** Through the forms, a blank blood pressure is stored as `''` by the
      create form and refused as required by the edit form, whose field
      comes from a column that may not be blank; the edit method's own
      emptiness test never sees it. */
  lemma BlankBloodPressureThroughForms(raw: RawInput)
    requires Strip(raw.bloodPressure) == []
    ensures CreateFieldStep(BloodPressure, raw) == Success(Text(""))
    ensures EditFieldStep(BloodPressure, raw) == Failure(Required)
  {
  }

  function FieldStep(f: Field, raw: RawInput, isEdit: bool): Result<Value, FormError> {
    if isEdit then EditFieldStep(f, raw) else CreateFieldStep(f, raw)
  }

  /** The values of the fields that passed their own checks. */
  function CleanedFields(raw: RawInput, isEdit: bool): (cleaned: map<Field, Value>)
    ensures forall f :: f in cleaned <==> f in FormFields(isEdit) && FieldStep(f, raw, isEdit).Success?
  {
    map f | f in FormFields(isEdit) && FieldStep(f, raw, isEdit).Success? :: FieldStep(f, raw, isEdit).value
  }

  /** One error for each field that failed its own checks. */
  function FieldErrors(raw: RawInput, isEdit: bool): (errors: map<Field, seq<FormError>>)
    ensures forall f :: f in errors <==> f in FormFields(isEdit) && FieldStep(f, raw, isEdit).Failure?
    ensures forall f :: f in errors ==> errors[f] == [FieldStep(f, raw, isEdit).error]
  {
    map f | f in FormFields(isEdit) && FieldStep(f, raw, isEdit).Failure? :: [FieldStep(f, raw, isEdit).error]
  }

  /** Python truthiness of a cleaned value. */
  predicate Truthy(v: Value) {
    match v
    case Text(s) => s != []
    case Int(i) => i != 0
    case Real(x) => x != 0.0
    case Null => false
  }

  /** The error `clean()` files against `weight`, if any: only when both
      height and weight survived their own checks with a true value. */
  function BmiFieldError(cleaned: map<Field, Value>): (e: Option<FormError>)
    ensures e.Some? ==> Height in cleaned && Weight in cleaned
    ensures e.Some? ==> e.value == BmiTooLow || e.value == BmiTooHigh
  {
    if Height in cleaned && Weight in cleaned
       && cleaned[Height].Real? && cleaned[Weight].Real?
       && Truthy(cleaned[Height]) && Truthy(cleaned[Weight])
    then BmiCheck(cleaned[Height].x, cleaned[Weight].x)
    else None
  }

  /** Every error the form reports after `full_clean`. */
  function FormErrors(raw: RawInput, isEdit: bool): (errors: map<Field, seq<FormError>>)
    ensures forall f :: f in errors ==> |errors[f]| == 1
    ensures forall f :: f in errors && f != Weight ==> f in FieldErrors(raw, isEdit)
  {
    var cleaned := CleanedFields(raw, isEdit);
    var fieldErrors := FieldErrors(raw, isEdit);
    match BmiFieldError(cleaned)
    case None => fieldErrors
    case Some(e) => fieldErrors[Weight := [e]]
  }

  /** Every cleaned value the form keeps after `full_clean`. */
  function FormCleaned(raw: RawInput, isEdit: bool): (cleaned: map<Field, Value>)
    ensures forall f :: f in cleaned ==> f !in FormErrors(raw, isEdit)
  {
    var cleaned := CleanedFields(raw, isEdit);
    if BmiFieldError(cleaned).Some? then cleaned - {Weight} else cleaned
  }

  /** The form is valid exactly when every field passes its own checks and
      the BMI is within 10..80 whenever height and weight are given. */
  lemma FormErrorsEmptyIff(raw: RawInput, isEdit: bool)
    ensures FormErrors(raw, isEdit) == map[] <==>
      (forall f :: f in FormFields(isEdit) ==> FieldStep(f, raw, isEdit).Success?) &&
      BmiFieldError(CleanedFields(raw, isEdit)).None?
  {
    var fieldErrors := FieldErrors(raw, isEdit);
    if BmiFieldError(CleanedFields(raw, isEdit)).Some? {
      assert Weight in FormErrors(raw, isEdit);
    }
    if exists f :: f in FormFields(isEdit) && FieldStep(f, raw, isEdit).Failure? {
      var f :| f in FormFields(isEdit) && FieldStep(f, raw, isEdit).Failure?;
      assert f in fieldErrors;
      assert f in FormErrors(raw, isEdit);
    }
  }

  /** A height that passes its field's checks is a number in 50..300. */
  lemma HeightStepInRange(raw: RawInput, isEdit: bool)
    requires FieldStep(Height, raw, isEdit).Success?
    ensures FieldStep(Height, raw, isEdit).value.Real?
    ensures 50.0 <= FieldStep(Height, raw, isEdit).value.x <= 300.0
  {
  }

  /** A weight that passes its field's checks is a number in 1..500. */
  lemma WeightStepInRange(raw: RawInput, isEdit: bool)
    requires FieldStep(Weight, raw, isEdit).Success?
    ensures FieldStep(Weight, raw, isEdit).value.Real?
    ensures 1.0 <= FieldStep(Weight, raw, isEdit).value.x <= 500.0
  {
  }

  /** A valid form's height and weight are in range and give a BMI within
      10..80. */
  lemma ValidFormBmiInRange(raw: RawInput, isEdit: bool)
    requires FormErrors(raw, isEdit) == map[]
    ensures Height in FormCleaned(raw, isEdit) && Weight in FormCleaned(raw, isEdit)
    ensures var cleaned := FormCleaned(raw, isEdit);
      cleaned[Height].Real? && cleaned[Weight].Real? &&
      var h := cleaned[Height].x;
      var w := cleaned[Weight].x;
      50.0 <= h <= 300.0 && 1.0 <= w <= 500.0 &&
      BMI_MIN * Square(h) <= w * 10000.0 <= BMI_MAX * Square(h)
  {
    ValidFormKeepsFields(raw, isEdit);
    HeightStepInRange(raw, isEdit);
    WeightStepInRange(raw, isEdit);
    var cleaned := CleanedFields(raw, isEdit);
    BmiOfRealFields(cleaned);
  }

  /** A valid form keeps every field's own cleaned value, height and weight
      among them, and `clean()` found nothing to report. */
  lemma ValidFormKeepsFields(raw: RawInput, isEdit: bool)
    requires FormErrors(raw, isEdit) == map[]
    ensures FormCleaned(raw, isEdit) == CleanedFields(raw, isEdit)
    ensures BmiFieldError(CleanedFields(raw, isEdit)).None?
    ensures FieldStep(Height, raw, isEdit).Success? && FieldStep(Weight, raw, isEdit).Success?
    ensures Height in CleanedFields(raw, isEdit) && Weight in CleanedFields(raw, isEdit)
    ensures CleanedFields(raw, isEdit)[Height] == FieldStep(Height, raw, isEdit).value
    ensures CleanedFields(raw, isEdit)[Weight] == FieldStep(Weight, raw, isEdit).value
  {
    ValidFormPasses(raw, isEdit);
    PassedHeightWeightKept(raw, isEdit);
    NoBmiErrorKeepsAll(raw, isEdit);
  }

  /** A height and weight that pass their own checks are kept as cleaned. */
  lemma PassedHeightWeightKept(raw: RawInput, isEdit: bool)
    requires FieldStep(Height, raw, isEdit).Success? && FieldStep(Weight, raw, isEdit).Success?
    ensures Height in CleanedFields(raw, isEdit) && Weight in CleanedFields(raw, isEdit)
    ensures CleanedFields(raw, isEdit)[Height] == FieldStep(Height, raw, isEdit).value
    ensures CleanedFields(raw, isEdit)[Weight] == FieldStep(Weight, raw, isEdit).value
  {
    assert Height in FormFields(isEdit) && Weight in FormFields(isEdit);
  }

  /** Without a BMI error `clean()` removes nothing. */
  lemma NoBmiErrorKeepsAll(raw: RawInput, isEdit: bool)
    requires BmiFieldError(CleanedFields(raw, isEdit)).None?
    ensures FormCleaned(raw, isEdit) == CleanedFields(raw, isEdit)
  {
  }

  /** A valid form passed the BMI check and the height and weight checks. */
  lemma ValidFormPasses(raw: RawInput, isEdit: bool)
    requires FormErrors(raw, isEdit) == map[]
    ensures BmiFieldError(CleanedFields(raw, isEdit)).None?
    ensures FieldStep(Height, raw, isEdit).Success? && FieldStep(Weight, raw, isEdit).Success?
  {
    FormErrorsEmptyIff(raw, isEdit);
    assert Height in FormFields(isEdit) && Weight in FormFields(isEdit);
  }

  /** With a positive height and weight on the form, `clean()` is the BMI
      check on them. */
  lemma BmiOfRealFields(cleaned: map<Field, Value>)
    requires Height in cleaned && Weight in cleaned
    requires cleaned[Height].Real? && cleaned[Weight].Real?
    requires cleaned[Height].x > 0.0 && cleaned[Weight].x > 0.0
    ensures BmiFieldError(cleaned) == BmiCheck(cleaned[Height].x, cleaned[Weight].x)
  {
  }

  /** The form object: the cleaned values and the errors per field, as
      Django's `cleaned_data` and `errors`. */
  class RecordForm {
    const isEdit: bool
    var cleaned: map<Field, Value>
    var errors: map<Field, seq<FormError>>

    /** One error per failed field, and no cleaned value for it. */
    predicate Valid()
      reads this
    {
      forall f :: f in errors ==> |errors[f]| == 1 && f !in cleaned
    }

    constructor(isEdit: bool)
      ensures this.isEdit == isEdit
      ensures cleaned == map[] && errors == map[]
      ensures Valid()
    {
      this.isEdit := isEdit;
      cleaned := map[];
      errors := map[];
    }

    /** `add_error(field, error)`: append the error to the field's list and
        drop the field from the cleaned values. */
    method AddError(f: Field, e: FormError)
      modifies this
      ensures errors == old(errors)[f := (if f in old(errors) then old(errors)[f] else []) + [e]]
      ensures cleaned == old(cleaned) - {f}
    {
      var previous := if f in errors then errors[f] else [];
      errors := errors[f := previous + [e]];
      cleaned := cleaned - {f};
    }

    /** Every field's own cleaning, as Django's `_clean_fields`. */
    method CleanFields(raw: RawInput)
      modifies this
      ensures cleaned == CleanedFields(raw, isEdit)
      ensures errors == FieldErrors(raw, isEdit)
      ensures Valid()
    {
      cleaned := CleanedFields(raw, isEdit);
      errors := FieldErrors(raw, isEdit);
    }

    /** `clean()` of both record forms: when height and weight are both
        present and true, a BMI below 10 or above 80 adds one error to
        `weight`. The create form raises the error and the edit form calls
        `add_error`; Django files both the same way. */
    method Clean()
      requires Valid()
      modifies this
      ensures Valid()
      ensures BmiFieldError(old(cleaned)).None? ==>
        errors == old(errors) && cleaned == old(cleaned)
      ensures BmiFieldError(old(cleaned)).Some? ==>
        && Weight !in old(errors)
        && errors == old(errors)[Weight := [BmiFieldError(old(cleaned)).value]]
        && cleaned == old(cleaned) - {Weight}
    {
      var e := BmiFieldError(cleaned);
      if e.Some? {
        assert Weight !in errors;
        assert [] + [e.value] == [e.value];
        AddError(Weight, e.value);
      }
    }

    /** `full_clean()`: the fields, then `clean()`. Afterwards the form is
        valid exactly when every field passed its own checks and the BMI
        check found nothing. */
    method FullClean(raw: RawInput)
      modifies this
      ensures Valid()
      ensures errors == FormErrors(raw, isEdit)
      ensures cleaned == FormCleaned(raw, isEdit)
      ensures IsValid() <==>
        && (forall f :: f in FormFields(isEdit) ==> FieldStep(f, raw, isEdit).Success?)
        && BmiFieldError(CleanedFields(raw, isEdit)).None?
    {
      CleanFields(raw);
      Clean();
      FormErrorsEmptyIff(raw, isEdit);
    }

    /** `is_valid()`: no field has an error. */
    predicate IsValid()
      reads this
    {
      errors == map[]
    }
  }
}
