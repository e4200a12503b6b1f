/** The patient helpers of `src/utils/patientUtils.ts`. */
module PatientUtils {
  import opened Wrappers
  import opened Calendar

  /** A patient's age in whole years, or "ND" (no data). */
  datatype Age = Known(years: nat) | ND

  // ------------------------------------------------------- extractPatientId

  /** The length of the longest prefix of `s` without an underscore. */
  function UnderscoreFreeLength(s: string): (n: nat)
    ensures n <= |s|
    ensures forall i :: 0 <= i < n ==> s[i] != '_'
    ensures n < |s| ==> s[n] == '_'
    decreases |s|
  {
    if s == [] || s[0] == '_' then 0 else 1 + UnderscoreFreeLength(s[1..])
  }

  /** The id starts the way the pattern `^P#[^_]+` needs: "P#" and a character other than '_'. */
  predicate HasPatientPrefix(s: string) {
    |s| >= 3 && s[0] == 'P' && s[1] == '#' && s[2] != '_'
  }

  /**
   * `extractPatientId`: the patient part "P#..." of a HealthStory id, which
   * runs up to the first underscore; an id that does not start that way is
   * returned unchanged.
   */
  function ExtractPatientId(healthStoryId: string): (r: string)
    ensures |r| <= |healthStoryId| && r == healthStoryId[..|r|]
    ensures HasPatientPrefix(healthStoryId) ==>
      && HasPatientPrefix(r)
      && (forall i :: 2 <= i < |r| ==> r[i] != '_')
      && (|r| == |healthStoryId| || healthStoryId[|r|] == '_')
    ensures !HasPatientPrefix(healthStoryId) ==> r == healthStoryId
  {
    if HasPatientPrefix(healthStoryId) then
      healthStoryId[..2 + UnderscoreFreeLength(healthStoryId[2..])]
    else
      healthStoryId
  }

  /** Extracting twice gives what extracting once gives. */
  lemma ExtractPatientIdIdempotent(healthStoryId: string)
    ensures ExtractPatientId(ExtractPatientId(healthStoryId)) == ExtractPatientId(healthStoryId)
  {
    var r := ExtractPatientId(healthStoryId);
    if HasPatientPrefix(healthStoryId) {
      UnderscoreFreeAll(r[2..]);
      assert r[..2 + |r[2..]|] == r;
    }
  }

  lemma {:induction false} UnderscoreFreeAll(s: string)
    requires forall i :: 0 <= i < |s| ==> s[i] != '_'
    ensures UnderscoreFreeLength(s) == |s|
    decreases |s|
  {
    if s != [] {
      UnderscoreFreeAll(s[1..]);
    }
  }

  /** The example of the source's documentation. */
  lemma ExtractPatientIdExample()
    ensures ExtractPatientId("P#ixYYSxO6f1lM_HS#KUJtIu-LkvKZ") == "P#ixYYSxO6f1lM"
  {
    var part, tail := "ixYYSxO6f1lM", "_HS#KUJtIu-LkvKZ";
    assert "P#ixYYSxO6f1lM_HS#KUJtIu-LkvKZ" == "P#" + part + tail;
    assert "P#ixYYSxO6f1lM" == "P#" + part;
    assert part[0] == 'i' && part[1] == 'x' && part[2] == 'Y' && part[3] == 'Y' && part[4] == 'S' && part[5] == 'x';
    assert part[6] == 'O' && part[7] == '6' && part[8] == 'f' && part[9] == '1' && part[10] == 'l' && part[11] == 'M';
    PatientPartBeforeUnderscore(part, tail);
  }

  /** An id "P#" + part + tail, where `part` has no underscore and `tail` starts with one, yields "P#" + part. */
  lemma PatientPartBeforeUnderscore(part: string, tail: string)
    requires part != [] && forall i :: 0 <= i < |part| ==> part[i] != '_'
    requires tail != [] && tail[0] == '_'
    ensures ExtractPatientId("P#" + part + tail) == "P#" + part
  {
    var s := "P#" + part + tail;
    assert s[2..] == part + tail;
    UnderscoreFreeStopsAt(part, tail);
    assert s[..2 + |part|] == "P#" + part;
  }

  lemma UnderscoreFreeStopsAt(head: string, tail: string)
    requires forall i :: 0 <= i < |head| ==> head[i] != '_'
    requires tail != [] && tail[0] == '_'
    ensures UnderscoreFreeLength(head + tail) == |head|
  {
    var s := head + tail;
    var n := UnderscoreFreeLength(s);
    assert s[|head|] == '_';
    assert forall i :: 0 <= i < |head| ==> s[i] != '_';
    assert n < |s|;
  }

  // ----------------------------------------------------- anonymizePatientId

  /** `anonymizePatientId`: "****" and the last four characters; ids of four characters or fewer are kept. */
  function AnonymizePatientId(patientId: string): (r: string)
    ensures |patientId| <= 4 ==> r == patientId
    ensures |patientId| > 4 ==>
      |r| == 8 && r[..4] == "****" && r[4..] == patientId[|patientId| - 4..]
  {
    if |patientId| <= 4 then patientId
    else
      var r := "****" + patientId[|patientId| - 4..];
      assert r[4..] == patientId[|patientId| - 4..];
      r
  }

  /** An anonymised id is its own anonymisation. */
  lemma AnonymizeIdempotent(patientId: string)
    ensures AnonymizePatientId(AnonymizePatientId(patientId)) == AnonymizePatientId(patientId)
  {
    var r := AnonymizePatientId(patientId);
    if |patientId| > 4 {
      assert r == r[..4] + r[4..];
    }
  }

  /** The example of the source's documentation. */
  lemma AnonymizeExample()
    ensures AnonymizePatientId("P#ixYYSxO6f1lM") == "****f1lM"
  {
  }

  // ----------------------------------------------------------- calculateAge

  /** Calendar dates compared year first, then month, then day. */
  predicate DateOnOrBefore(y1: int, m1: int, d1: int, y2: int, m2: int, d2: int) {
    y1 < y2 || (y1 == y2 && (m1 < m2 || (m1 == m2 && d1 <= d2)))
  }

  /** By `today`, the person born at `birth` has had their `n`-th birthday (month and day of birth). */
  predicate HasTurned(birth: CivilTime, today: CivilTime, n: int) {
    DateOnOrBefore(birth.year + n, birth.month, birth.day, today.year, today.month, today.day)
  }

  /**
   * `calculateAge` with the current date passed in as `today`: the number of
   * birthdays had by today, or ND for a missing or invalid birthdate or one
   * after today.
   */
  function CalculateAge(birthdate: Option<JsDate>, today: CivilTime): (age: Age)
    ensures birthdate.None? || birthdate.value.None? ==> age == ND
    ensures age.Known? ==>
      var birth := birthdate.value.value;
      HasTurned(birth, today, age.years) && !HasTurned(birth, today, age.years + 1)
    ensures birthdate.Some? && birthdate.value.Some? && age == ND ==>
      !HasTurned(birthdate.value.value, today, 0)
  {
    match birthdate
    case None => ND
    case Some(None) => ND
    case Some(Some(birth)) =>
      var years := today.year - birth.year;
      var monthDiff := today.month - birth.month;
      var age := if monthDiff < 0 || (monthDiff == 0 && today.day < birth.day) then years - 1 else years;
      if age >= 0 then Known(age) else ND
  }
}
