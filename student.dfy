/** The example app's `Student` record and the string codec of its `Sex`
    field, both directly (`string` / `init(_ string:)`) and through the
    SQLite column conversion that delegates to it. */
module Students {

  datatype Sex = Male | Female | Others

  /** `Sex.string`. Note that `.others` is written "other". */
  function SexString(s: Sex): (str: string)
    ensures |str| >= 4 && forall i :: 0 <= i < |str| ==> 'a' <= str[i] <= 'z'
  {
    match s
    case Male => "male"
    case Female => "female"
    case Others => "other"
  }

  /** `Sex.init(_ string:)`: exact, case-sensitive match on the two named
      encodings; everything else is `.others`. */
  function SexFromString(str: string): (s: Sex)
    ensures SexString(s) == str || (s == Others && str != "male" && str != "female")
  {
    if str == SexString(Male) then Male
    else if str == SexString(Female) then Female
    else Others
  }

  lemma SexRoundTrip(s: Sex)
    ensures SexFromString(SexString(s)) == s
  {
  }

  lemma SexStringInjective(s: Sex, u: Sex)
    requires SexString(s) == SexString(u)
    ensures s == u
  {
    SexRoundTrip(s);
    SexRoundTrip(u);
  }

  /** Anything but exactly "male" or "female" decodes to `.others`, so
      "other", "others", "Male" and "" all do. */
  lemma SexFromOtherString(str: string)
    requires str != "male" && str != "female"
    ensures SexFromString(str) == Others
  {
  }

  /** Decoding is the inverse of encoding on the encodings, and every other
      string falls to `.others`. */
  lemma SexFromStringCharacterised(str: string, s: Sex)
    ensures SexFromString(str) == s <==>
      (str == SexString(s) || (s == Others && str != SexString(Male) && str != SexString(Female)))
  {
  }

  // SQLite `Value` conformance

  /** `datatypeValue`: the column holds the string encoding. */
  function DatatypeValue(s: Sex): (v: string)
    ensures FromDatatypeValue(v) == s
  {
    SexString(s)
  }

  /** `fromDatatypeValue(_:)`: the column is decoded with `init(_ string:)`. */
  function FromDatatypeValue(v: string): (s: Sex)
    ensures SexString(s) == v || (s == Others && v != "male" && v != "female")
  {
    SexFromString(v)
  }

  lemma DatatypeValueRoundTrip(s: Sex)
    ensures FromDatatypeValue(DatatypeValue(s)) == s
  {
    SexRoundTrip(s);
  }

  // The record

  /** `Student`; `id` is a 64-bit integer in the source. */
  datatype Student = Student(id: int, name: string, age: int, sex: Sex)

  /** The memberwise initialiser without `id`: the id defaults to 0. */
  function NewStudent(name: string, age: int, sex: Sex): (s: Student)
    ensures s.id == 0 && s.name == name && s.age == age && s.sex == sex
  {
    Student(0, name, age, sex)
  }
}
