/**
 * Conditional display and client-side validation of the rendered form.
 * A section or field is shown when it has no display predicate or the
 * store holds exactly the predicate's value. Validation walks the shown
 * fields in order; each field's checks run in a fixed order and the last
 * failing check decides the field's message. Regular-expression matching
 * is a parameter: `matches(pattern, text)` is `new RegExp(pattern).test(text)`.
 */
module Validation {
  import opened Values
  import opened FormTypes

  /** shouldDisplay: no predicate, or strict equality of the stored value with the expected one. */
  predicate ShouldDisplay(dependsOn: Option<DependsOn>, values: map<string, Value>) {
    dependsOn.None? || Lookup(values, dependsOn.value.field) == dependsOn.value.value
  }

  lemma ShouldDisplayMeaning(dependsOn: Option<DependsOn>, values: map<string, Value>)
    ensures dependsOn.None? ==> ShouldDisplay(dependsOn, values)
    ensures dependsOn.Some? && dependsOn.value.field !in values ==>
              (ShouldDisplay(dependsOn, values) <==> dependsOn.value.value == Undef)
    ensures dependsOn.Some? && dependsOn.value.field in values ==>
              (ShouldDisplay(dependsOn, values) <==> values[dependsOn.value.field] == dependsOn.value.value)
  {
  }

  // ---------------------------------------------------------------------------
  // The checks of one field
  // ---------------------------------------------------------------------------

  function RequiredMessage(caption: string): string { caption + " is required" }
  function FormatMessage(caption: string): string { caption + " format is invalid" }
  function AtLeastMessage(caption: string, bound: int): string { caption + " must be at least " + IntToString(bound) }
  function AtMostMessage(caption: string, bound: int): string { caption + " must be at most " + IntToString(bound) }
  function MinLengthMessage(caption: string, bound: int): string { AtLeastMessage(caption, bound) + " characters" }
  function MaxLengthMessage(caption: string, bound: int): string { AtMostMessage(caption, bound) + " characters" }

  /** A present, non-empty pattern that the value's text does not match. */
  predicate PatternFails(f: FormField, value: Value, matches: (string, string) -> bool) {
    f.validation.Some? && f.validation.value.pattern.Some? && f.validation.value.pattern.value != "" &&
    !matches(f.validation.value.pattern.value, ToJsString(value))
  }

  /** Numeric checks apply to number fields whose value is not "". */
  predicate NumericChecked(f: FormField, value: Value) {
    f.fieldType == "number" && value != Str("")
  }

  /** Below the minimum; NaN compares false with everything. */
  predicate BelowMin(f: FormField, value: Value) {
    NumericChecked(f, value) && f.validation.Some? && f.validation.value.min.Some? &&
    ToNumber(value).Some? && ToNumber(value).value < f.validation.value.min.value
  }

  predicate AboveMax(f: FormField, value: Value) {
    NumericChecked(f, value) && f.validation.Some? && f.validation.value.max.Some? &&
    ToNumber(value).Some? && ToNumber(value).value > f.validation.value.max.value
  }

  /** Length checks apply to string values only. */
  predicate TooShort(f: FormField, value: Value) {
    value.Str? && f.validation.Some? && f.validation.value.minLength.Some? &&
    |value.s| < f.validation.value.minLength.value
  }

  predicate TooLong(f: FormField, value: Value) {
    value.Str? && f.validation.Some? && f.validation.value.maxLength.Some? &&
    |value.s| > f.validation.value.maxLength.value
  }

  predicate AnyCheckFails(f: FormField, value: Value, matches: (string, string) -> bool) {
    PatternFails(f, value, matches) || BelowMin(f, value) || AboveMax(f, value) || TooShort(f, value) || TooLong(f, value)
  }

  /** A required field left blank is reported as such and nothing else is checked. */
  predicate RequiredBlank(f: FormField, value: Value) {
    f.required && IsBlank(value)
  }

  /** An optional field with a falsy value is skipped altogether. */
  predicate SkippedOptional(f: FormField, value: Value) {
    !f.required && !Truthy(value)
  }

  /** A value that passes the required check and is not skipped goes through every check. */
  predicate Checked(f: FormField, value: Value) {
    !RequiredBlank(f, value) && !SkippedOptional(f, value)
  }

  /**
   * The message the checks of one shown field leave behind, or None. The
   * checks run pattern, minimum, maximum, minimum length, maximum length,
   * each overwriting the last, so the latest failing check in that order
   * decides.
   */
  function FieldError(f: FormField, value: Value, matches: (string, string) -> bool): (r: Option<string>)
    ensures RequiredBlank(f, value) ==> r == Some(RequiredMessage(f.caption))
    ensures SkippedOptional(f, value) ==> r == None
    ensures Checked(f, value) ==> (r.None? <==> !AnyCheckFails(f, value, matches))
    ensures Checked(f, value) && TooLong(f, value) ==>
              r == Some(MaxLengthMessage(f.caption, f.validation.value.maxLength.value))
    ensures Checked(f, value) && !TooLong(f, value) && TooShort(f, value) ==>
              r == Some(MinLengthMessage(f.caption, f.validation.value.minLength.value))
    ensures Checked(f, value) && !TooLong(f, value) && !TooShort(f, value) && AboveMax(f, value) ==>
              r == Some(AtMostMessage(f.caption, f.validation.value.max.value))
    ensures Checked(f, value) && !TooLong(f, value) && !TooShort(f, value) && !AboveMax(f, value) && BelowMin(f, value) ==>
              r == Some(AtLeastMessage(f.caption, f.validation.value.min.value))
    ensures Checked(f, value) && !TooLong(f, value) && !TooShort(f, value) && !AboveMax(f, value) && !BelowMin(f, value) &&
            PatternFails(f, value, matches) ==>
              r == Some(FormatMessage(f.caption))
  {
    if RequiredBlank(f, value) then Some(RequiredMessage(f.caption))
    else if SkippedOptional(f, value) then None
    else LengthStep(f, value, RangeStep(f, value, PatternStep(f, value, matches)))
  }

  /** The message after the pattern check. */
  function PatternStep(f: FormField, value: Value, matches: (string, string) -> bool): Option<string> {
    if PatternFails(f, value, matches) then Some(FormatMessage(f.caption)) else None
  }

  /** The message after the minimum and then the maximum check, given the one before them. */
  function RangeStep(f: FormField, value: Value, prior: Option<string>): Option<string> {
    if AboveMax(f, value) then Some(AtMostMessage(f.caption, f.validation.value.max.value))
    else if BelowMin(f, value) then Some(AtLeastMessage(f.caption, f.validation.value.min.value))
    else prior
  }

  /** The message after the minimum-length and then the maximum-length check, given the one before them. */
  function LengthStep(f: FormField, value: Value, prior: Option<string>): Option<string> {
    if TooLong(f, value) then Some(MaxLengthMessage(f.caption, f.validation.value.maxLength.value))
    else if TooShort(f, value) then Some(MinLengthMessage(f.caption, f.validation.value.minLength.value))
    else prior
  }

  /** The only blank values a field can carry past the required check are those of optional fields, which are skipped. */
  lemma BlankNeverChecked(f: FormField, value: Value, matches: (string, string) -> bool)
    requires IsBlank(value)
    ensures FieldError(f, value, matches) == if f.required then Some(RequiredMessage(f.caption)) else None
  {
  }

  /** A number field "Age" that must be at least 18. */
  function AgeField(): FormField {
    FormField("age", "number", "Age", true, None, None,
              Some(ValidationRules(None, Some(18), None, None, None)), None, None, None)
  }

  lemma ReadsTen()
    ensures ToNumber(Str("10")) == Some(10)
  {
    assert AllDigits("10");
    assert "10"[..1] == "1";
    assert DigitsValue("1") == 1;
    assert DigitsValue("10") == DigitsValue("1") * 10 + DigitValue('0');
    assert ParseInt("10") == Some(DigitsValue("10") as int);
  }

  lemma ReadsForty()
    ensures ToNumber(Str("40")) == Some(40)
  {
    assert AllDigits("40");
    assert "40"[..1] == "4";
    assert DigitsValue("4") == 4;
    assert DigitsValue("40") == DigitsValue("4") * 10 + DigitValue('0');
    assert ParseInt("40") == Some(DigitsValue("40") as int);
  }

  lemma WritesEighteen()
    ensures IntToString(18) == "18"
  {
    assert NatToString(1) == "1";
    assert NatToString(18) == NatToString(1) + [DigitChar(8)];
  }

  /** "10" in an Age field with minimum 18 is reported with the minimum written out. */
  lemma AgeBelowMinimum(matches: (string, string) -> bool)
    ensures FieldError(AgeField(), Str("10"), matches) == Some("Age must be at least 18")
  {
    ReadsTen();
    WritesEighteen();
    assert Checked(AgeField(), Str("10")) && !TooLong(AgeField(), Str("10")) && !TooShort(AgeField(), Str("10"));
    assert BelowMin(AgeField(), Str("10")) && !AboveMax(AgeField(), Str("10"));
    assert AtLeastMessage("Age", 18) == "Age must be at least 18";
  }

  /** "40" in the same field passes. */
  lemma AgeAboveMinimum(matches: (string, string) -> bool)
    ensures FieldError(AgeField(), Str("40"), matches) == None
  {
    ReadsForty();
    assert !BelowMin(AgeField(), Str("40"));
  }

  // ---------------------------------------------------------------------------
  // The whole form
  // ---------------------------------------------------------------------------

  /** What a field contributes when its section is shown: its message if the field itself is shown. */
  function FieldReport(f: FormField, values: map<string, Value>, matches: (string, string) -> bool): Option<string> {
    if ShouldDisplay(f.dependsOn, values) then FieldError(f, Lookup(values, f.id), matches) else None
  }

  /** What field `j` of section `i` contributes to the error map. */
  function Report(ss: seq<FormSection>, i: nat, j: nat, values: map<string, Value>,
                  matches: (string, string) -> bool): Option<string>
    requires i < |ss| && j < |ss[i].fields|
  {
    if ShouldDisplay(ss[i].dependsOn, values) then FieldReport(ss[i].fields[j], values, matches) else None
  }

  function Record(errors: map<string, string>, f: FormField, values: map<string, Value>,
                  matches: (string, string) -> bool): map<string, string> {
    Put(errors, f.id, FieldReport(f, values, matches))
  }

  /** The error map after the fields `fs` of a shown section, one after another. */
  function FieldsErrors(errors: map<string, string>, fs: seq<FormField>, values: map<string, Value>,
                        matches: (string, string) -> bool): map<string, string> {
    if fs == [] then errors
    else Record(FieldsErrors(errors, fs[..|fs| - 1], values, matches), fs[|fs| - 1], values, matches)
  }

  /** The error map after the sections `ss`, hidden sections skipped. */
  function SectionsErrors(ss: seq<FormSection>, values: map<string, Value>,
                          matches: (string, string) -> bool): map<string, string> {
    if ss == [] then map[]
    else
      var prev := SectionsErrors(ss[..|ss| - 1], values, matches);
      var last := ss[|ss| - 1];
      if ShouldDisplay(last.dependsOn, values) then FieldsErrors(prev, last.fields, values, matches) else prev
  }

  /** validateForm's error map; without a structure it is empty. */
  function Errors(structure: Option<FormStructure>, values: map<string, Value>,
                  matches: (string, string) -> bool): map<string, string> {
    if structure.None? then map[] else SectionsErrors(structure.value.sections, values, matches)
  }

  /** Every field id is carried by one field only. */
  predicate DistinctIds(ss: seq<FormSection>) {
    forall i, j, i', j' ::
      (0 <= i < |ss| && 0 <= j < |ss[i].fields| && 0 <= i' < |ss| && 0 <= j' < |ss[i'].fields| &&
       ss[i].fields[j].id == ss[i'].fields[j'].id) ==> i == i' && j == j'
  }

  lemma {:induction false} FieldsKeys(errors: map<string, string>, fs: seq<FormField>, values: map<string, Value>,
                                      matches: (string, string) -> bool)
    ensures forall k :: k in FieldsErrors(errors, fs, values, matches) <==>
              k in errors || exists j :: 0 <= j < |fs| && fs[j].id == k && FieldReport(fs[j], values, matches).Some?
    decreases |fs|
  {
    if fs != [] {
      var rest := fs[..|fs| - 1];
      FieldsKeys(errors, rest, values, matches);
      forall k | k in FieldsErrors(errors, fs, values, matches) && k !in errors
        ensures exists j :: 0 <= j < |fs| && fs[j].id == k && FieldReport(fs[j], values, matches).Some?
      {
        if k in FieldsErrors(errors, rest, values, matches) {
          var j :| 0 <= j < |rest| && rest[j].id == k && FieldReport(rest[j], values, matches).Some?;
          assert fs[j] == rest[j];
        } else {
          assert fs[|fs| - 1].id == k;
        }
      }
      forall k | exists j :: 0 <= j < |fs| && fs[j].id == k && FieldReport(fs[j], values, matches).Some?
        ensures k in FieldsErrors(errors, fs, values, matches)
      {
        var j :| 0 <= j < |fs| && fs[j].id == k && FieldReport(fs[j], values, matches).Some?;
        if j < |fs| - 1 {
          assert rest[j] == fs[j];
        }
      }
    }
  }

  /** A key no field of `fs` carries keeps its entry. */
  lemma {:induction false} FieldsKeepOthers(errors: map<string, string>, fs: seq<FormField>, values: map<string, Value>,
                                            matches: (string, string) -> bool, k: string)
    requires k in errors
    requires forall j :: 0 <= j < |fs| ==> fs[j].id != k
    ensures k in FieldsErrors(errors, fs, values, matches) && FieldsErrors(errors, fs, values, matches)[k] == errors[k]
    decreases |fs|
  {
    if fs != [] {
      FieldsKeepOthers(errors, fs[..|fs| - 1], values, matches, k);
    }
  }

  /** A reporting field whose id no other field of `fs` carries leaves its own message. */
  lemma {:induction false} FieldsSetOwn(errors: map<string, string>, fs: seq<FormField>, values: map<string, Value>,
                                        matches: (string, string) -> bool, j: nat)
    requires j < |fs| && FieldReport(fs[j], values, matches).Some?
    requires forall j' :: 0 <= j' < |fs| && j' != j ==> fs[j'].id != fs[j].id
    ensures fs[j].id in FieldsErrors(errors, fs, values, matches)
    ensures FieldsErrors(errors, fs, values, matches)[fs[j].id] == FieldReport(fs[j], values, matches).value
    decreases |fs|
  {
    var rest, last := fs[..|fs| - 1], fs[|fs| - 1];
    var prev := FieldsErrors(errors, rest, values, matches);
    assert FieldsErrors(errors, fs, values, matches) == Put(prev, last.id, FieldReport(last, values, matches));
    if j < |fs| - 1 {
      assert rest[j] == fs[j];
      assert forall j' :: 0 <= j' < |rest| ==> rest[j'] == fs[j'];
      FieldsSetOwn(errors, rest, values, matches, j);
      assert last.id != fs[j].id;
    }
  }

  /** Keys are the ids of reporting fields of shown sections, and every such id is a key. */
  lemma SectionsKeys(ss: seq<FormSection>, values: map<string, Value>, matches: (string, string) -> bool)
    ensures forall k :: k in SectionsErrors(ss, values, matches) <==>
              exists i, j :: 0 <= i < |ss| && 0 <= j < |ss[i].fields| && ss[i].fields[j].id == k &&
                             Report(ss, i, j, values, matches).Some?
  {
    forall k | k in SectionsErrors(ss, values, matches)
      ensures exists i, j :: 0 <= i < |ss| && 0 <= j < |ss[i].fields| && ss[i].fields[j].id == k &&
                             Report(ss, i, j, values, matches).Some?
    {
      SectionsReported(ss, values, matches, k);
    }
    forall i, j | 0 <= i < |ss| && 0 <= j < |ss[i].fields| && Report(ss, i, j, values, matches).Some?
      ensures ss[i].fields[j].id in SectionsErrors(ss, values, matches)
    {
      SectionsRecorded(ss, values, matches, i, j);
    }
  }

  /** Every key comes from a reporting field of a shown section. */
  lemma {:induction false} SectionsReported(ss: seq<FormSection>, values: map<string, Value>,
                                            matches: (string, string) -> bool, k: string)
    requires k in SectionsErrors(ss, values, matches)
    ensures exists i, j :: 0 <= i < |ss| && 0 <= j < |ss[i].fields| && ss[i].fields[j].id == k &&
                           Report(ss, i, j, values, matches).Some?
    decreases |ss|
  {
    if ss != [] {
      var rest, n := ss[..|ss| - 1], |ss| - 1;
      var prev := SectionsErrors(rest, values, matches);
      if k in prev {
        SectionsReported(rest, values, matches, k);
        var i, j :| 0 <= i < |rest| && 0 <= j < |rest[i].fields| && rest[i].fields[j].id == k &&
                    Report(rest, i, j, values, matches).Some?;
        assert ss[i] == rest[i];
        assert Report(ss, i, j, values, matches).Some?;
      } else {
        FieldsKeys(prev, ss[n].fields, values, matches);
        var j :| 0 <= j < |ss[n].fields| && ss[n].fields[j].id == k && FieldReport(ss[n].fields[j], values, matches).Some?;
        assert Report(ss, n, j, values, matches).Some?;
      }
    }
  }

  /** Every reporting field of a shown section leaves a key. */
  lemma {:induction false} SectionsRecorded(ss: seq<FormSection>, values: map<string, Value>,
                                            matches: (string, string) -> bool, i: nat, j: nat)
    requires i < |ss| && j < |ss[i].fields| && Report(ss, i, j, values, matches).Some?
    ensures ss[i].fields[j].id in SectionsErrors(ss, values, matches)
    decreases |ss|
  {
    var rest, n := ss[..|ss| - 1], |ss| - 1;
    var prev := SectionsErrors(rest, values, matches);
    var k := ss[i].fields[j].id;
    if i < n {
      assert rest[i] == ss[i];
      assert Report(rest, i, j, values, matches).Some?;
      SectionsRecorded(rest, values, matches, i, j);
      if ShouldDisplay(ss[n].dependsOn, values) {
        FieldsKeys(prev, ss[n].fields, values, matches);
      }
    } else {
      FieldsKeys(prev, ss[n].fields, values, matches);
      assert FieldReport(ss[n].fields[j], values, matches).Some?;
    }
  }

  /** Under distinct ids, a reporting field's id maps to that field's own message. */
  lemma {:induction false} SectionsMessage(ss: seq<FormSection>, values: map<string, Value>,
                                           matches: (string, string) -> bool, i: nat, j: nat)
    requires DistinctIds(ss)
    requires i < |ss| && j < |ss[i].fields| && Report(ss, i, j, values, matches).Some?
    ensures ss[i].fields[j].id in SectionsErrors(ss, values, matches)
    ensures SectionsErrors(ss, values, matches)[ss[i].fields[j].id] == Report(ss, i, j, values, matches).value
    decreases |ss|
  {
    var rest := ss[..|ss| - 1];
    var n := |ss| - 1;
    var k := ss[i].fields[j].id;
    assert DistinctIds(rest) by {
      forall a, b, a', b' | 0 <= a < |rest| && 0 <= b < |rest[a].fields| && 0 <= a' < |rest| && 0 <= b' < |rest[a'].fields| &&
                            rest[a].fields[b].id == rest[a'].fields[b'].id
        ensures a == a' && b == b'
      {
        assert rest[a] == ss[a] && rest[a'] == ss[a'];
      }
    }
    if i < n {
      assert rest[i] == ss[i];
      SectionsMessage(rest, values, matches, i, j);
      if ShouldDisplay(ss[n].dependsOn, values) {
        forall j' | 0 <= j' < |ss[n].fields|
          ensures ss[n].fields[j'].id != k
        {
        }
        FieldsKeepOthers(SectionsErrors(rest, values, matches), ss[n].fields, values, matches, k);
      }
    } else {
      forall j' | 0 <= j' < |ss[n].fields| && j' != j
        ensures ss[n].fields[j'].id != k
      {
      }
      FieldsSetOwn(SectionsErrors(rest, values, matches), ss[n].fields, values, matches, j);
    }
  }

  /**
   * The form is valid exactly when no shown field of a shown section fails
   * a check; and, when ids are distinct, each failing field's id carries
   * that field's own message.
   */
  lemma ErrorsMeaning(structure: FormStructure, values: map<string, Value>, matches: (string, string) -> bool)
    ensures var ss := structure.sections;
            forall k :: k in Errors(Some(structure), values, matches) <==>
              exists i, j :: 0 <= i < |ss| && 0 <= j < |ss[i].fields| && ss[i].fields[j].id == k &&
                             Report(ss, i, j, values, matches).Some?
    ensures var ss := structure.sections;
            |Errors(Some(structure), values, matches)| == 0 <==>
              forall i, j :: 0 <= i < |ss| && 0 <= j < |ss[i].fields| ==> Report(ss, i, j, values, matches).None?
    ensures var ss := structure.sections;
            DistinctIds(ss) ==>
              forall i, j :: 0 <= i < |ss| && 0 <= j < |ss[i].fields| && Report(ss, i, j, values, matches).Some? ==>
                ss[i].fields[j].id in Errors(Some(structure), values, matches) &&
                Errors(Some(structure), values, matches)[ss[i].fields[j].id] == Report(ss, i, j, values, matches).value
  {
    var ss := structure.sections;
    var e := Errors(Some(structure), values, matches);
    SectionsKeys(ss, values, matches);
    if |e| == 0 {
      forall i, j | 0 <= i < |ss| && 0 <= j < |ss[i].fields|
        ensures Report(ss, i, j, values, matches).None?
      {
        assert ss[i].fields[j].id !in e;
      }
    } else {
      var k :| k in e;
    }
    if DistinctIds(ss) {
      forall i, j | 0 <= i < |ss| && 0 <= j < |ss[i].fields| && Report(ss, i, j, values, matches).Some?
        ensures ss[i].fields[j].id in e && e[ss[i].fields[j].id] == Report(ss, i, j, values, matches).value
      {
        SectionsMessage(ss, values, matches, i, j);
      }
    }
  }

  /** A field that is hidden, or sits in a hidden section, never has an error when ids are distinct. */
  lemma HiddenNeverReported(structure: FormStructure, values: map<string, Value>, matches: (string, string) -> bool,
                            i: nat, j: nat)
    requires DistinctIds(structure.sections)
    requires i < |structure.sections| && j < |structure.sections[i].fields|
    requires !ShouldDisplay(structure.sections[i].dependsOn, values) ||
             !ShouldDisplay(structure.sections[i].fields[j].dependsOn, values)
    ensures structure.sections[i].fields[j].id !in Errors(Some(structure), values, matches)
  {
    var ss := structure.sections;
    var k := ss[i].fields[j].id;
    SectionsKeys(ss, values, matches);
    assert Report(ss, i, j, values, matches).None?;
    forall i', j' | 0 <= i' < |ss| && 0 <= j' < |ss[i'].fields| && ss[i'].fields[j'].id == k
      ensures Report(ss, i', j', values, matches).None?
    {
      assert i' == i && j' == j;
    }
  }

  // ---------------------------------------------------------------------------
  // validateForm
  // ---------------------------------------------------------------------------

  /** The error map with `id` set to the message `e`, if there is one. */
  function Put(errors: map<string, string>, id: string, e: Option<string>): (r: map<string, string>)
    ensures e.None? ==> r == errors
    ensures e.Some? ==> r == errors[id := e.value]
  {
    match e
    case Some(m) => errors[id := m]
    case None => errors
  }

  lemma Overwrite(errors: map<string, string>, id: string, e: Option<string>, m: string)
    ensures Put(errors, id, e)[id := m] == Put(errors, id, Some(m))
  {
  }

  /** The checks of one shown field, run in order against the running error map. */
  method CheckField(errors: map<string, string>, f: FormField, value: Value, matches: (string, string) -> bool)
    returns (r: map<string, string>)
    ensures r == Put(errors, f.id, FieldError(f, value, matches))
  {
    r := errors;
    if f.required && (value == Undef || value == Null || value == Str("")) {
      r := r[f.id := RequiredMessage(f.caption)];
      return;
    }
    if !Truthy(value) && !f.required {
      return;
    }
    if f.validation.Some? && f.validation.value.pattern.Some? && f.validation.value.pattern.value != "" {
      if !matches(f.validation.value.pattern.value, ToJsString(value)) {
        r := r[f.id := FormatMessage(f.caption)];
      }
    }
    r := CheckRange(r, f, value, errors, PatternStep(f, value, matches));
    r := CheckLength(r, f, value, errors, RangeStep(f, value, PatternStep(f, value, matches)));
  }

  /** The minimum and maximum checks of a number field. */
  method CheckRange(errors: map<string, string>, f: FormField, value: Value,
                    ghost base: map<string, string>, ghost prior: Option<string>)
    returns (r: map<string, string>)
    requires errors == Put(base, f.id, prior)
    ensures r == Put(base, f.id, RangeStep(f, value, prior))
  {
    r := errors;
    ghost var e := prior;
    if f.fieldType == "number" && value != Str("") {
      var numValue := ToNumber(value);
      if f.validation.Some? && f.validation.value.min.Some? && numValue.Some? && numValue.value < f.validation.value.min.value {
        Overwrite(base, f.id, e, AtLeastMessage(f.caption, f.validation.value.min.value));
        r := r[f.id := AtLeastMessage(f.caption, f.validation.value.min.value)];
        e := Some(AtLeastMessage(f.caption, f.validation.value.min.value));
      }
      if f.validation.Some? && f.validation.value.max.Some? && numValue.Some? && numValue.value > f.validation.value.max.value {
        Overwrite(base, f.id, e, AtMostMessage(f.caption, f.validation.value.max.value));
        r := r[f.id := AtMostMessage(f.caption, f.validation.value.max.value)];
      }
    }
  }

  /** The length checks of a string value. */
  method CheckLength(errors: map<string, string>, f: FormField, value: Value,
                     ghost base: map<string, string>, ghost prior: Option<string>)
    returns (r: map<string, string>)
    requires errors == Put(base, f.id, prior)
    ensures r == Put(base, f.id, LengthStep(f, value, prior))
  {
    r := errors;
    ghost var e := prior;
    if value.Str? {
      if f.validation.Some? && f.validation.value.minLength.Some? && |value.s| < f.validation.value.minLength.value {
        Overwrite(base, f.id, e, MinLengthMessage(f.caption, f.validation.value.minLength.value));
        r := r[f.id := MinLengthMessage(f.caption, f.validation.value.minLength.value)];
        e := Some(MinLengthMessage(f.caption, f.validation.value.minLength.value));
      }
      if f.validation.Some? && f.validation.value.maxLength.Some? && |value.s| > f.validation.value.maxLength.value {
        Overwrite(base, f.id, e, MaxLengthMessage(f.caption, f.validation.value.maxLength.value));
        r := r[f.id := MaxLengthMessage(f.caption, f.validation.value.maxLength.value)];
      }
    }
  }

  /** validateForm: the error map of the shown fields, and whether it is empty. */
  method ValidateForm(structure: Option<FormStructure>, values: map<string, Value>, matches: (string, string) -> bool)
    returns (errors: map<string, string>, valid: bool)
    ensures errors == Errors(structure, values, matches)
    ensures valid <==> |errors| == 0
  {
    errors := map[];
    if structure.Some? {
      var ss := structure.value.sections;
      var i := 0;
      while i < |ss|
        invariant 0 <= i <= |ss|
        invariant errors == SectionsErrors(ss[..i], values, matches)
      {
        assert ss[..i + 1][..i] == ss[..i];
        if ShouldDisplay(ss[i].dependsOn, values) {
          var fs := ss[i].fields;
          ghost var before := errors;
          var j := 0;
          while j < |fs|
            invariant 0 <= j <= |fs|
            invariant errors == FieldsErrors(before, fs[..j], values, matches)
          {
            assert fs[..j + 1][..j] == fs[..j];
            if ShouldDisplay(fs[j].dependsOn, values) {
              errors := CheckField(errors, fs[j], Lookup(values, fs[j].id), matches);
            }
            j := j + 1;
          }
          assert fs[..j] == fs;
        }
        i := i + 1;
      }
      assert ss[..i] == ss;
    }
    valid := |errors| == 0;
  }
}
