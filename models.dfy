/** The stored entities of the medical-data application: a medical record,
    its duplicate key and BMI, and the checks and paths for uploaded JSON
    files. */
module Models {
  import opened Wrappers
  import opened Text

  /** Record ids and file-name ids: the text of a version-4 UUID. */
  type Id = string

  /** The text form of a UUID: hexadecimal digits and dashes. */
  predicate IsUuidText(s: string) {
    |s| > 0 && forall i :: 0 <= i < |s| ==>
      ('0' <= s[i] <= '9') || ('a' <= s[i] <= 'f') || s[i] == '-'
  }

  /** The declared choices of the `gender` column. */
  const GENDER_CHOICES: set<string> := {"M", "F"}

  /** What `get_gender_display()` shows for a stored gender value: the label
      of a declared choice, or the raw value for anything else. */
  function GenderDisplay(gender: string): (shown: string)
    ensures gender == "M" ==> shown == "Мужской"
    ensures gender == "F" ==> shown == "Женский"
    ensures gender !in GENDER_CHOICES ==> shown == gender
  {
    if gender == "M" then "Мужской"
    else if gender == "F" then "Женский"
    else gender
  }

  /** Where a record came from: the `data_source` column ('db', 'file',
      and the value 'both' that the create view writes). */
  datatype DataSource = DbSource | FileSource | BothSource

  /** The declared choices of `data_source`. */
  const DATA_SOURCE_CHOICES: set<DataSource> := {DbSource, FileSource}

  /** A row of the `MedicalRecord` table; its id is the key under which the
      table stores it. Timestamps are abstract instants. */
  datatype MedicalRecord = MedicalRecord(
    patientName: string,
    age: int,
    gender: string,
    height: real,
    weight: real,
    bloodPressure: string,
    heartRate: int,
    temperature: real,
    symptoms: string,
    diagnosis: string,
    createdAt: int,
    dataSource: DataSource)

  /** The field values a view collects before saving (`record_data`):
      heart rate and temperature may be absent (Python `None`). */
  datatype RecordData = RecordData(
    patientName: string,
    age: int,
    gender: string,
    height: real,
    weight: real,
    bloodPressure: string,
    heartRate: Option<int>,
    temperature: Option<real>,
    symptoms: string,
    diagnosis: string)

  /** The six fields that decide whether two records are duplicates; blood
      pressure, heart rate, temperature and symptoms are not among them. */
  datatype DuplicateKey = DuplicateKey(
    patientName: string,
    age: int,
    gender: string,
    height: real,
    weight: real,
    diagnosis: string)

  function KeyOf(r: MedicalRecord): DuplicateKey {
    DuplicateKey(r.patientName, r.age, r.gender, r.height, r.weight, r.diagnosis)
  }

  function KeyOfData(d: RecordData): DuplicateKey {
    DuplicateKey(d.patientName, d.age, d.gender, d.height, d.weight, d.diagnosis)
  }

  /** Two records differing only outside the key have the same key. */
  lemma KeyIgnoresVitals(r: MedicalRecord, bloodPressure: string, heartRate: int,
                         temperature: real, symptoms: string)
    ensures KeyOf(r.(bloodPressure := bloodPressure, heartRate := heartRate,
                     temperature := temperature, symptoms := symptoms)) == KeyOf(r)
  {
  }

  function Square(x: real): real {
    x * x
  }

  /** The square of a non-zero number is positive. */
  lemma SquarePositive(x: real)
    requires x != 0.0
    ensures Square(x) > 0.0
  {
    if x < 0.0 {
      calc {
        Square(x);
      ==
        (-x) * (-x);
      >
        0.0;
      }
    } else {
      calc {
        Square(x);
      ==
        x * x;
      >
        0.0;
      }
    }
  }

  lemma ScaleUp(a: real, b: real, k: real)
    requires k > 0.0 && a < b
    ensures a * k < b * k
  {
  }

  lemma ScaleDown(a: real, b: real, k: real)
    requires k > 0.0 && a * k < b * k
    ensures a < b
  {
  }

  /** When `b * k == v` for a positive `k`, comparing `b` with `c` is
      comparing `v` with `c * k`. */
  lemma CompareScaled(b: real, k: real, v: real, c: real)
    requires k > 0.0 && b * k == v
    ensures b < c <==> v < c * k
    ensures c < b <==> c * k < v
  {
    if b < c {
      ScaleUp(b, c, k);
    }
    if v < c * k {
      ScaleDown(b, c, k);
    }
    if c < b {
      ScaleUp(c, b, k);
    }
    if c * k < v {
      ScaleDown(c, b, k);
    }
  }

  /** Weight in kilograms over the square of the height in metres, the
      formula both `bmi` and the forms' `clean()` use; stated without
      division, it is the number whose product with the squared height in
      centimetres is 10000 times the weight. */
  function BmiOf(height: real, weight: real): (bmi: real)
    requires height != 0.0
    ensures bmi * Square(height) == weight * 10000.0
  {
    var m := height / 100.0;
    var bmi := weight / (m * m);
    assert bmi * (m * m) == weight;
    assert height * height == (m * m) * 10000.0;
    bmi
  }

  /** The `bmi` property: 0 for a non-positive height; the rounding to two
      decimals is not modelled. */
  function Bmi(r: MedicalRecord): (b: real)
    ensures r.height <= 0.0 ==> b == 0.0
    ensures r.height > 0.0 ==> b * Square(r.height) == r.weight * 10000.0
  {
    if r.height > 0.0 then BmiOf(r.height, r.weight) else 0.0
  }

  /** Index of the last occurrence of `c` in `s`, or -1 (Python's `rfind`). */
  function RFind(s: string, c: char): (i: int)
    ensures -1 <= i < |s|
    ensures i >= 0 ==> s[i] == c
  {
    if s == [] then -1
    else if s[|s| - 1] == c then |s| - 1
    else RFind(s[..|s| - 1], c)
  }

  /** Nothing after the found index is `c`. */
  lemma {:induction false} RFindIsLast(s: string, c: char, j: int)
    requires RFind(s, c) < j < |s|
    ensures s[j] != c
  {
    if s[|s| - 1] != c && j < |s| - 1 {
      RFindIsLast(s[..|s| - 1], c, j);
    }
  }

  /** `RFind` finds an occurrence with no later one. */
  lemma {:induction false} RFindAt(s: string, c: char, i: int)
    requires 0 <= i < |s| && s[i] == c
    requires forall j :: i < j < |s| ==> s[j] != c
    ensures RFind(s, c) == i
  {
    if i < |s| - 1 {
      RFindAt(s[..|s| - 1], c, i);
    }
  }

  /** `RFind` reports -1 when `c` does not occur. */
  lemma {:induction false} RFindAbsent(s: string, c: char)
    requires forall j :: 0 <= j < |s| ==> s[j] != c
    ensures RFind(s, c) == -1
  {
    if s != [] {
      RFindAbsent(s[..|s| - 1], c);
    }
  }

  /** Every character is a dot (scanned from the left, as `splitext` does). */
  predicate AllDots(s: string) {
    s == [] || (s[0] == '.' && AllDots(s[1..]))
  }

  /** Where `splitext` cuts: the last dot of the last path component, unless
      everything before that dot in the component is dots; otherwise the end
      of the path (no extension). */
  function ExtIndex(p: string): (k: int)
    ensures 0 <= k <= |p|
    ensures k < |p| ==> p[k] == '.'
  {
    var sep := RFind(p, '/');
    var dot := RFind(p, '.');
    if dot > sep && !AllDots(p[sep + 1..dot]) then dot else |p|
  }

  /** After the cut there is neither a dot nor a slash. */
  lemma ExtIndexTail(p: string, j: int)
    requires ExtIndex(p) < j < |p|
    ensures p[j] != '.' && p[j] != '/'
  {
    var sep := RFind(p, '/');
    var dot := RFind(p, '.');
    RFindIsLast(p, '.', j);
    RFindIsLast(p, '/', j);
  }

  /** Python's `os.path.splitext` on POSIX paths: root and extension, where
      the extension is empty or starts with a dot. */
  function SplitExt(p: string): (parts: (string, string))
    ensures parts.0 + parts.1 == p
    ensures parts.1 == [] || parts.1[0] == '.'
  {
    var k := ExtIndex(p);
    (p[..k], p[k..])
  }

  /** `validate_json_extension`: the name is accepted iff its `splitext`
      extension, lower-cased, is `.json`. */
  predicate ValidateJsonExtension(name: string) {
    Lower(SplitExt(name).1) == ".json"
  }

  /** Lower-casing commutes with taking a suffix. */
  lemma LowerSuffix(s: string, k: int)
    requires 0 <= k <= |s|
    ensures Lower(s[k..]) == Lower(s)[k..]
  {
  }

  /** A lower-cased character is a dot or a slash only if it was one. */
  lemma LowerKeepsPunctuation(c: char)
    ensures LowerChar(c) == '.' <==> c == '.'
    ensures LowerChar(c) == '/' <==> c == '/'
  {
  }

  lemma {:induction false} AllDotsIff(s: string)
    ensures AllDots(s) <==> forall i :: 0 <= i < |s| ==> s[i] == '.'
  {
    if s != [] {
      AllDotsIff(s[1..]);
      assert forall i :: 1 <= i < |s| ==> s[i] == s[1..][i - 1];
    }
  }

  /** The name ends in a dot followed by four characters that are neither
      dots nor slashes. */
  predicate DotAndFour(name: string) {
    && |name| >= 5 && name[|name| - 5] == '.'
    && forall i :: |name| - 5 < i < |name| ==> name[i] != '.' && name[i] != '/'
  }

  /** A name whose lower-case form ends in `.json` ends in a dot followed by
      four characters that are neither dots nor slashes. */
  lemma LowerEndsWithJson(name: string)
    requires EndsWith(Lower(name), ".json")
    ensures DotAndFour(name)
  {
    var n := |name|;
    var low := Lower(name);
    assert low[n - 5..] == ".json";
    forall j | n - 5 <= j < n
      ensures j == n - 5 ==> name[j] == '.'
      ensures j > n - 5 ==> name[j] != '.' && name[j] != '/'
    {
      assert low[j] == ".json"[j - (n - 5)];
      LowerKeepsPunctuation(name[j]);
    }
  }

  /** `name[j]` is a character other than a dot in the last path component
      of `name`. */
  predicate StemAt(name: string, j: int) {
    0 <= j < |name| && name[j] != '.' && '/' !in name[j..]
  }

  /** A position with no slash from it to the end lies after the last
      slash. */
  lemma AfterLastSlash(name: string, j: int)
    requires 0 <= j < |name| && '/' !in name[j..]
    ensures RFind(name, '/') < j
  {
    forall i | j <= i < |name|
      ensures name[i] != '/'
    {
      assert name[i] == name[j..][i - j];
    }
  }

  /** A position after the last slash has no slash from it to the end. */
  lemma NoSlashAfter(name: string, j: int)
    requires RFind(name, '/') < j <= |name|
    ensures '/' !in name[j..]
  {
    forall i | j <= i < |name|
      ensures name[i] != '/'
    {
      RFindIsLast(name, '/', i);
    }
  }

  /** When `splitext` finds an extension, a non-dot character precedes it
      in its path component. */
  lemma ExtIndexHasStem(name: string)
    requires ExtIndex(name) < |name|
    ensures exists j :: j < ExtIndex(name) && StemAt(name, j)
  {
    var sep := RFind(name, '/');
    var k := ExtIndex(name);
    assert k == RFind(name, '.') && k > sep && !AllDots(name[sep + 1..k]);
    var stem := name[sep + 1..k];
    AllDotsIff(stem);
    var i :| 0 <= i < |stem| && stem[i] != '.';
    assert name[sep + 1 + i] == stem[i];
    NoSlashAfter(name, sep + 1 + i);
    assert StemAt(name, sep + 1 + i);
  }

  /** An accepted extension is the last five characters. */
  lemma AcceptedCutsFiveFromEnd(name: string)
    requires ValidateJsonExtension(name)
    ensures ExtIndex(name) == |name| - 5
  {
    assert |name[ExtIndex(name)..]| == 5;
  }

  /** Everything `splitext` accepts ends in `.json`. */
  lemma AcceptedEndsWithJson(name: string)
    requires ValidateJsonExtension(name)
    ensures EndsWith(Lower(name), ".json")
  {
    AcceptedCutsFiveFromEnd(name);
    assert Lower(name)[|name| - 5..] == Lower(name[|name| - 5..]);
  }

  /** Everything `splitext` accepts has a non-dot character before its
      extension in its last path component. */
  lemma AcceptedHasStem(name: string)
    requires ValidateJsonExtension(name)
    ensures exists j :: j < |name| - 5 && StemAt(name, j)
  {
    AcceptedCutsFiveFromEnd(name);
    ExtIndexHasStem(name);
  }

  /** `splitext` cuts five characters from the end of a name that ends in
      a dot and four characters that are neither dots nor slashes, when a
      non-dot character `name[j]` precedes that dot in its path component. */
  lemma ExtIndexAtLastDot(name: string, j: int)
    requires DotAndFour(name)
    requires j < |name| - 5 && StemAt(name, j)
    ensures ExtIndex(name) == |name| - 5
  {
    AfterLastSlash(name, j);
    var d := |name| - 5;
    var sep := RFind(name, '/');
    RFindAt(name, '.', d);
    var stem := name[sep + 1..d];
    assert stem[j - sep - 1] == name[j];
    AllDotsIff(stem);
  }

  /** A cut five from the end of a name whose lower-case form ends in
      `.json` leaves the extension `.json`. */
  lemma CutAtJsonAccepted(name: string)
    requires EndsWith(Lower(name), ".json")
    requires ExtIndex(name) == |name| - 5
    ensures ValidateJsonExtension(name)
  {
    LowerSuffix(name, |name| - 5);
  }

  /** Every name ending in `.json` with a non-dot character before it in its
      last path component passes the `splitext` check. */
  lemma ValidateJsonExtensionComplete(name: string)
    requires EndsWith(Lower(name), ".json")
    requires exists j :: j < |name| - 5 && StemAt(name, j)
    ensures ValidateJsonExtension(name)
  {
    var j :| j < |name| - 5 && StemAt(name, j);
    LowerEndsWithJson(name);
    ExtIndexAtLastDot(name, j);
    CutAtJsonAccepted(name);
  }

  /** The extension check accepts exactly the names that end in `.json` in
      any case and have a character other than a dot before that `.json` in
      their last path component. */
  lemma ValidateJsonExtensionIff(name: string)
    ensures ValidateJsonExtension(name) <==>
      EndsWith(Lower(name), ".json") &&
      exists j :: j < |name| - 5 && StemAt(name, j)
  {
    if ValidateJsonExtension(name) {
      AcceptedEndsWithJson(name);
      AcceptedHasStem(name);
    }
    if EndsWith(Lower(name), ".json") && exists j :: j < |name| - 5 && StemAt(name, j) {
      ValidateJsonExtensionComplete(name);
    }
  }

  /** The model's extension check is stricter than the form's `endswith`
      check: every name it accepts also ends in `.json`. */
  lemma ValidateJsonExtensionImpliesEndsWith(name: string)
    requires ValidateJsonExtension(name)
    ensures EndsWith(Lower(name), ".json")
  {
    AcceptedEndsWithJson(name);
  }

  /** `DATA.JSON` passes: the extension check ignores case. */
  lemma ValidateJsonExtensionUpperCase()
    ensures ValidateJsonExtension("DATA.JSON")
  {
    var name := "DATA.JSON";
    assert StemAt(name, 0);
    assert Lower(name)[4..] == ".json";
    ValidateJsonExtensionComplete(name);
  }

  /** `data.txt` fails: its lower-case form does not end in `.json`. */
  lemma ValidateJsonExtensionOtherExtension()
    ensures !ValidateJsonExtension("data.txt")
  {
    if ValidateJsonExtension("data.txt") {
      AcceptedEndsWithJson("data.txt");
    }
  }

  /** `data` fails: a name shorter than five characters has no room for a
      `.json` extension. */
  lemma ValidateJsonExtensionNoExtension()
    ensures !ValidateJsonExtension("data")
  {
    assert |SplitExt("data").1| <= 4;
  }

  /** `.json` fails although it ends in `.json`: a leading dot makes a
      hidden file, not an extension. */
  lemma ValidateJsonExtensionHiddenFile()
    ensures !ValidateJsonExtension(".json") && EndsWith(Lower(".json"), ".json")
  {
    if ValidateJsonExtension(".json") {
      AcceptedHasStem(".json");
    }
    assert Lower(".json") == ".json";
  }

  /** The slash after `medical_json` is the last one in a stored path. */
  lemma StoredPathLastSlash(fileId: Id)
    requires IsUuidText(fileId)
    ensures RFind("medical_json/medical_data_" + fileId + ".json", '/') == 12
  {
    var path := "medical_json/medical_data_" + fileId + ".json";
    assert path[12] == '/';
    forall i | 12 < i < |path|
      ensures path[i] != '/'
    {
      if 26 <= i < |path| - 5 {
        assert path[i] == fileId[i - 26];
      }
    }
    RFindAt(path, '/', 12);
  }

  /** A stored path passes the extension check. */
  lemma StoredPathAccepted(fileId: Id)
    requires IsUuidText(fileId)
    ensures ValidateJsonExtension("medical_json/medical_data_" + fileId + ".json")
  {
    var path := "medical_json/medical_data_" + fileId + ".json";
    var n := |path|;
    StoredPathLastSlash(fileId);
    NoSlashAfter(path, 13);
    assert path[13] == 'm';
    assert StemAt(path, 13);
    assert path[n - 5..] == ".json";
    LowerSuffix(path, n - 5);
    assert Lower(".json") == ".json";
    ValidateJsonExtensionComplete(path);
  }

  /** `medical_json_file_path`: where an uploaded JSON file is stored. The
      uploaded file name plays no part; the path is in `medical_json/` and
      always passes the extension check. */
  function MedicalJsonFilePath(fileId: Id, filename: string): (path: string)
    requires IsUuidText(fileId)
    ensures |path| > 13 && path[..13] == "medical_json/"
    ensures ValidateJsonExtension(path)
  {
    StoredPathAccepted(fileId);
    StoredPathPrefix(fileId);
    "medical_json/medical_data_" + fileId + ".json"
  }

  /** A stored path starts with the directory name. */
  lemma StoredPathPrefix(fileId: Id)
    ensures var path := "medical_json/medical_data_" + fileId + ".json";
      |path| > 13 && path[..13] == "medical_json/"
  {
    var path := "medical_json/medical_data_" + fileId + ".json";
    assert path == "medical_json/" + ("medical_data_" + fileId + ".json");
  }

  /** The stored path depends on the generated id alone. */
  lemma MedicalJsonFilePathIgnoresName(fileId: Id, a: string, b: string)
    requires IsUuidText(fileId)
    ensures MedicalJsonFilePath(fileId, a) == MedicalJsonFilePath(fileId, b)
  {
  }
}
