/**
 * The schema normaliser of the form context: it turns the forms endpoint's
 * loosely typed schema into sections of canonical fields, falls back to a
 * fixed minimal schema when no usable schema arrives, and reads the option
 * lists returned by a dependent-options endpoint.
 */
module Normalize {
  import opened Values
  import opened FormTypes

  const GeneralId := "general"
  const GeneralTitle := "General Information"
  const GroupType := "group"

  // ---------------------------------------------------------------------------
  // Field transform
  // ---------------------------------------------------------------------------

  /** Each string becomes the pair whose label and value are that string. */
  function SameLabel(items: seq<string>): (r: seq<OptionPair>)
    ensures |r| == |items|
    ensures forall i :: 0 <= i < |r| ==> r[i] == OptionPair(items[i], items[i])
  {
    seq(|items|, i requires 0 <= i < |items| => OptionPair(items[i], items[i]))
  }

  /**
   * A list whose first element is a string is converted element-wise; any
   * other list, the empty one included, is taken to be in pair form already.
   */
  function TransformOptions(o: RawOptions): (r: seq<OptionPair>)
    ensures o.Strings? ==> |r| == |o.items|
    ensures o.Strings? ==> forall i :: 0 <= i < |r| ==> r[i].caption == o.items[i] && r[i].value == o.items[i]
    ensures o.Pairs? ==> r == o.pairs
  {
    if o.Strings? && |o.items| > 0 then SameLabel(o.items)
    else if o.Strings? then []
    else o.pairs
  }

  /** A raw field as a canonical field: options normalised, visibility collapsed, the rest copied. */
  function TransformField(f: ApiFormField): (r: FormField)
    ensures r.id == f.id && r.fieldType == f.fieldType && r.caption == f.caption
    ensures r.required == f.required && r.validation == f.validation
    ensures r.dynamicOptions == f.dynamicOptions
    ensures r.placeholder == f.placeholder && r.description == f.description
    ensures r.options.Some? <==> f.options.Some?
    ensures f.options.Some? ==> r.options.value == TransformOptions(f.options.value)
    ensures r.dependsOn.Some? <==> f.visibility.Some?
    ensures f.visibility.Some? ==>
              r.dependsOn.value.field == f.visibility.value.dependsOn &&
              r.dependsOn.value.value == f.visibility.value.value
  {
    var options := if f.options.Some? then Some(TransformOptions(f.options.value)) else None;
    var dependsOn := if f.visibility.Some? then Some(DependsOn(f.visibility.value.dependsOn, f.visibility.value.value)) else None;
    FormField(f.id, f.fieldType, f.caption, f.required, options, dependsOn,
              f.validation, f.dynamicOptions, f.placeholder, f.description)
  }

  /** The visibility operator `condition` has no influence on the canonical field. */
  lemma ConditionIgnored(f: ApiFormField, condition: string)
    requires f.visibility.Some?
    ensures TransformField(f.(visibility := Some(f.visibility.value.(condition := condition)))) == TransformField(f)
  {
  }

  function TransformFields(fs: seq<ApiFormField>): (r: seq<FormField>)
    ensures |r| == |fs|
    ensures forall i :: 0 <= i < |fs| ==> r[i] == TransformField(fs[i])
  {
    seq(|fs|, i requires 0 <= i < |fs| => TransformField(fs[i]))
  }

  lemma TransformFieldsAppend(a: seq<ApiFormField>, b: seq<ApiFormField>)
    ensures TransformFields(a + b) == TransformFields(a) + TransformFields(b)
  {
  }

  // ---------------------------------------------------------------------------
  // Sections
  // ---------------------------------------------------------------------------

  predicate IsGroup(f: ApiFormField) {
    f.fieldType == GroupType
  }

  /** The section a group becomes: its id, its label as title, its nested fields transformed. */
  function GroupSection(g: ApiFormField): (s: FormSection)
    ensures s.id == g.id && s.title == g.caption && s.dependsOn.None?
    ensures s.fields == TransformFields(g.fields.GetOr([]))
  {
    FormSection(g.id, g.caption, TransformFields(g.fields.GetOr([])), None)
  }

  /** `sections.find(s => s.id === id)`, as an index. */
  function FindSection(ss: seq<FormSection>, id: string): (r: Option<nat>)
    ensures r.Some? ==> r.value < |ss| && ss[r.value].id == id
    ensures r.Some? ==> forall j :: 0 <= j < r.value ==> ss[j].id != id
    ensures r.None? ==> forall j :: 0 <= j < |ss| ==> ss[j].id != id
  {
    if ss == [] then None
    else if ss[0].id == id then Some(0)
    else match FindSection(ss[1..], id)
      case None => None
      case Some(k) => Some(k + 1)
  }

  /**
   * One step of the section build: a group is appended as its own section;
   * any other field is appended to the first section named "general",
   * which is created at the end if there is none yet.
   */
  function AddField(ss: seq<FormSection>, f: ApiFormField): seq<FormSection> {
    if IsGroup(f) then ss + [GroupSection(f)]
    else match FindSection(ss, GeneralId)
      case Some(g) => ss[g := ss[g].(fields := ss[g].fields + [TransformField(f)])]
      case None => ss + [FormSection(GeneralId, GeneralTitle, [TransformField(f)], None)]
  }

  /** The sections built from the raw fields, one step per field in encounter order. */
  function BuildSections(fs: seq<ApiFormField>): seq<FormSection> {
    if fs == [] then [] else AddField(BuildSections(fs[..|fs| - 1]), fs[|fs| - 1])
  }

  /**
   * transformFormStructure: the structure is named after the raw form and the
   * requested type, and its sections are built field by field.
   */
  method TransformFormStructure(apiForm: ApiFormStructure, formType: string) returns (r: FormStructure)
    ensures r.id == apiForm.formId && r.title == apiForm.title && r.formType == formType
    ensures r.sections == BuildSections(apiForm.fields)
  {
    var fields := apiForm.fields;
    var sections: seq<FormSection> := [];
    var i := 0;
    while i < |fields|
      invariant 0 <= i <= |fields|
      invariant sections == BuildSections(fields[..i])
    {
      var field := fields[i];
      ghost var next := AddField(sections, field);
      assert BuildSections(fields[..i + 1]) == next by {
        assert fields[..i + 1][..i] == fields[..i];
      }
      if field.fieldType == GroupType {
        var transformed := TransformFields(if field.fields.Some? then field.fields.value else []);
        sections := sections + [FormSection(field.id, field.caption, transformed, None)];
      } else {
        var general := FindSection(sections, GeneralId);
        if general.None? {
          sections := sections + [FormSection(GeneralId, GeneralTitle, [], None)];
          general := Some(|sections| - 1);
          assert [] + [TransformField(field)] == [TransformField(field)];
        }
        var g := general.value;
        sections := sections[g := sections[g].(fields := sections[g].fields + [TransformField(field)])];
      }
      assert sections == next;
      i := i + 1;
    }
    assert fields[..i] == fields;
    r := FormStructure(apiForm.formId, apiForm.title, formType, sections);
  }

  // A reference description of BuildSections, independent of its step-wise build.

  /** One section per group, in encounter order. */
  function GroupSections(fs: seq<ApiFormField>): seq<FormSection> {
    if fs == [] then []
    else GroupSections(fs[..|fs| - 1]) + (if IsGroup(fs[|fs| - 1]) then [GroupSection(fs[|fs| - 1])] else [])
  }

  /** The fields outside any group, in encounter order. */
  function Ungrouped(fs: seq<ApiFormField>): seq<ApiFormField> {
    if fs == [] then []
    else Ungrouped(fs[..|fs| - 1]) + (if IsGroup(fs[|fs| - 1]) then [] else [fs[|fs| - 1]])
  }

  predicate AllGroups(fs: seq<ApiFormField>) {
    forall i :: 0 <= i < |fs| ==> IsGroup(fs[i])
  }

  predicate NoGroupNamedGeneral(fs: seq<ApiFormField>) {
    forall i :: 0 <= i < |fs| ==> IsGroup(fs[i]) ==> fs[i].id != GeneralId
  }

  lemma {:induction false} UngroupedAppend(a: seq<ApiFormField>, b: seq<ApiFormField>)
    ensures Ungrouped(a + b) == Ungrouped(a) + Ungrouped(b)
    decreases |b|
  {
    if b == [] {
      assert a + b == a;
    } else {
      var b', x := b[..|b| - 1], b[|b| - 1];
      UngroupedAppend(a, b');
      assert (a + b)[..|a + b| - 1] == a + b';
      assert (a + b)[|a + b| - 1] == x;
      var tail := if IsGroup(x) then [] else [x];
      assert Ungrouped(b) == Ungrouped(b') + tail;
      assert Ungrouped(a + b) == Ungrouped(a + b') + tail;
    }
  }

  lemma {:induction false} GroupSectionIds(fs: seq<ApiFormField>)
    requires NoGroupNamedGeneral(fs)
    ensures forall j :: 0 <= j < |GroupSections(fs)| ==> GroupSections(fs)[j].id != GeneralId
    decreases |fs|
  {
    if fs != [] {
      GroupSectionIds(fs[..|fs| - 1]);
    }
  }

  /** Without ungrouped fields, the sections are exactly the groups, in order. */
  lemma {:induction false} OnlyGroups(fs: seq<ApiFormField>)
    requires AllGroups(fs)
    ensures BuildSections(fs) == GroupSections(fs)
    decreases |fs|
  {
    if fs != [] {
      OnlyGroups(fs[..|fs| - 1]);
    }
  }

  lemma BuildStep(fs: seq<ApiFormField>, x: ApiFormField)
    ensures BuildSections(fs + [x]) == AddField(BuildSections(fs), x)
  {
    assert (fs + [x])[..|fs|] == fs;
  }

  /** An ungrouped field joins the first "general" section, wherever it stands. */
  lemma AddToGeneral(a: seq<FormSection>, s: FormSection, c: seq<FormSection>, x: ApiFormField)
    requires !IsGroup(x) && s.id == GeneralId
    requires forall j :: 0 <= j < |a| ==> a[j].id != GeneralId
    ensures AddField(a + [s] + c, x) == a + [s.(fields := s.fields + [TransformField(x)])] + c
  {
    var cur := a + [s] + c;
    assert cur[|a|] == s;
    assert forall j :: 0 <= j < |a| ==> cur[j] == a[j];
    var found := FindSection(cur, GeneralId);
    assert found == Some(|a|);
  }

  /** The fields `q` contribute to the first "general" section, appended to those of `s`. */
  function Collected(s: FormSection, q: seq<ApiFormField>): FormSection {
    s.(fields := s.fields + TransformFields(Ungrouped(q)))
  }

  lemma CollectGroup(q: seq<ApiFormField>, x: ApiFormField,
                     a: seq<FormSection>, s: FormSection, b: seq<FormSection>)
    requires IsGroup(x)
    ensures AddField(a + [Collected(s, q)] + b + GroupSections(q), x) ==
            a + [Collected(s, q + [x])] + b + GroupSections(q + [x])
  {
    assert (q + [x])[..|q|] == q;
    assert Ungrouped(q + [x]) == Ungrouped(q);
    assert GroupSections(q + [x]) == GroupSections(q) + [GroupSection(x)];
  }

  lemma CollectField(q: seq<ApiFormField>, x: ApiFormField,
                     a: seq<FormSection>, s: FormSection, b: seq<FormSection>)
    requires !IsGroup(x) && s.id == GeneralId
    requires forall j :: 0 <= j < |a| ==> a[j].id != GeneralId
    ensures AddField(a + [Collected(s, q)] + b + GroupSections(q), x) ==
            a + [Collected(s, q + [x])] + b + GroupSections(q + [x])
  {
    assert (q + [x])[..|q|] == q;
    assert Ungrouped(q + [x]) == Ungrouped(q) + [x];
    assert GroupSections(q + [x]) == GroupSections(q);
    assert a + [Collected(s, q)] + b + GroupSections(q) == a + [Collected(s, q)] + (b + GroupSections(q));
    AddToGeneral(a, Collected(s, q), b + GroupSections(q), x);
    assert TransformFields(Ungrouped(q + [x])) == TransformFields(Ungrouped(q)) + [TransformField(x)];
    assert Collected(s, q + [x]) == Collected(s, q).(fields := Collected(s, q).fields + [TransformField(x)]);
  }

  /**
   * Once the first section named "general" is in place, every later group
   * is appended after the existing sections and every later ungrouped field
   * is appended to that section's fields.
   */
  lemma {:induction false} GeneralCollects(p: seq<ApiFormField>, q: seq<ApiFormField>,
                                           a: seq<FormSection>, s: FormSection, b: seq<FormSection>)
    requires BuildSections(p) == a + [s] + b
    requires s.id == GeneralId
    requires forall j :: 0 <= j < |a| ==> a[j].id != GeneralId
    ensures BuildSections(p + q) == a + [Collected(s, q)] + b + GroupSections(q)
    decreases |q|
  {
    if q == [] {
      assert p + q == p;
      assert s.fields + TransformFields([]) == s.fields;
    } else {
      var q', x := q[..|q| - 1], q[|q| - 1];
      GeneralCollects(p, q', a, s, b);
      assert q == q' + [x];
      assert p + q == (p + q') + [x];
      BuildStep(p + q', x);
      if IsGroup(x) {
        CollectGroup(q', x, a, s, b);
      } else {
        CollectField(q', x, a, s, b);
      }
    }
  }

  /**
   * When the first ungrouped field comes before any group named "general",
   * one "general" section is synthesised at that field's position; it holds
   * all ungrouped fields in encounter order, and every group keeps its own
   * section in encounter order around it.
   */
  lemma SynthesizedGeneral(pre: seq<ApiFormField>, u: ApiFormField, post: seq<ApiFormField>)
    requires AllGroups(pre) && NoGroupNamedGeneral(pre) && !IsGroup(u)
    ensures BuildSections(pre + [u] + post) ==
            GroupSections(pre)
            + [FormSection(GeneralId, GeneralTitle, TransformFields(Ungrouped([u] + post)), None)]
            + GroupSections(post)
  {
    var general := FormSection(GeneralId, GeneralTitle, [TransformField(u)], None);
    var c := Collected(general, post);
    assert BuildSections(pre + [u] + post) == GroupSections(pre) + [c] + [] + GroupSections(post) by {
      FirstUngrouped(pre, u);
      GroupSectionIds(pre);
      GeneralCollects(pre + [u], post, GroupSections(pre), general, []);
    }
    assert c == FormSection(GeneralId, GeneralTitle, TransformFields(Ungrouped([u] + post)), None) by {
      SynthesizedFields(u, post);
    }
    DropEmpty(GroupSections(pre), c, GroupSections(post));
  }

  lemma DropEmpty<T>(x: seq<T>, c: T, y: seq<T>)
    ensures x + [c] + [] + y == x + [c] + y
  {
  }

  lemma FirstUngrouped(pre: seq<ApiFormField>, u: ApiFormField)
    requires AllGroups(pre) && NoGroupNamedGeneral(pre) && !IsGroup(u)
    ensures BuildSections(pre + [u]) ==
            GroupSections(pre) + [FormSection(GeneralId, GeneralTitle, [TransformField(u)], None)] + []
  {
    OnlyGroups(pre);
    GroupSectionIds(pre);
    BuildStep(pre, u);
  }

  lemma SynthesizedFields(u: ApiFormField, post: seq<ApiFormField>)
    requires !IsGroup(u)
    ensures Collected(FormSection(GeneralId, GeneralTitle, [TransformField(u)], None), post) ==
            FormSection(GeneralId, GeneralTitle, TransformFields(Ungrouped([u] + post)), None)
  {
    var rest := Ungrouped(post);
    assert Ungrouped([u]) == [u] by { assert [u][..0] == []; }
    assert Ungrouped([u] + post) == [u] + rest by { UngroupedAppend([u], post); }
    assert TransformFields([u] + rest) == [TransformField(u)] + TransformFields(rest) by {
      TransformFieldsAppend([u], rest);
    }
  }

  /**
   * When a group named "general" comes before every ungrouped field, no
   * section is synthesised: the ungrouped fields are appended, in encounter
   * order, to that group's own fields.
   */
  lemma GeneralGroupAbsorbs(pre: seq<ApiFormField>, g: ApiFormField, post: seq<ApiFormField>)
    requires AllGroups(pre) && NoGroupNamedGeneral(pre) && IsGroup(g) && g.id == GeneralId
    ensures BuildSections(pre + [g] + post) ==
            GroupSections(pre)
            + [GroupSection(g).(fields := GroupSection(g).fields + TransformFields(Ungrouped(post)))]
            + GroupSections(post)
  {
    OnlyGroups(pre);
    GroupSectionIds(pre);
    assert (pre + [g])[..|pre + [g]| - 1] == pre;
    assert BuildSections(pre + [g]) == GroupSections(pre) + [GroupSection(g)] + [];
    GeneralCollects(pre + [g], post, GroupSections(pre), GroupSection(g), []);
  }

  // ---------------------------------------------------------------------------
  // Fallback structure and schema selection
  // ---------------------------------------------------------------------------

  /** ASCII upper case; characters outside a..z are left as they are. */
  function UpperChar(c: char): char {
    if 'a' <= c <= 'z' then (c as int - 32) as char else c
  }

  /** `type.charAt(0).toUpperCase() + type.slice(1)`. */
  function Capitalize(s: string): (r: string)
    ensures |r| == |s|
    ensures |s| > 0 ==> r[0] == UpperChar(s[0]) && r[1..] == s[1..]
  {
    if s == [] then [] else [UpperChar(s[0])] + s[1..]
  }

  function RequiredText(id: string, fieldType: string, caption: string): FormField {
    FormField(id, fieldType, caption, true, None, None, None, None, None, None)
  }

  /** The minimal schema used whenever no usable schema arrives. */
  function DefaultFormStructure(formType: string): (r: FormStructure)
    ensures r.id == formType + "_insurance_application" && r.formType == formType
    ensures |r.sections| == 1 && r.sections[0].id == "personal_info"
    ensures r.sections[0].title == "Personal Information" && r.sections[0].dependsOn.None?
    ensures |r.sections[0].fields| == 4
    ensures r.sections[0].fields[0].id == "first_name" && r.sections[0].fields[1].id == "last_name"
    ensures r.sections[0].fields[2].id == "email" && r.sections[0].fields[3].id == "phone"
    ensures forall j :: 0 <= j < 4 ==> r.sections[0].fields[j].required
    ensures forall j :: 0 <= j < 4 ==> r.sections[0].fields[j].dependsOn.None?
  {
    FormStructure(
      formType + "_insurance_application",
      Capitalize(formType) + " Insurance Application",
      formType,
      [FormSection("personal_info", "Personal Information",
        [RequiredText("first_name", "text", "First Name"),
         RequiredText("last_name", "text", "Last Name"),
         RequiredText("email", "email", "Email Address"),
         RequiredText("phone", "tel", "Phone Number")],
        None)])
  }

  /**
   * The fixed mapping from requested form type to the schema's formId:
   * health, home and car map to "<type>_insurance_application", every
   * other type to nothing.
   */
  function FormIdFor(formType: string): (r: Option<string>)
    ensures r.Some? <==> formType in {"health", "home", "car"}
  {
    if formType in {"health", "home", "car"} then Some(formType + "_insurance_application") else None
  }

  /** For a mapped type, the fallback structure carries the very formId the schema is looked up by. */
  lemma FallbackSharesMappedId(formType: string)
    requires FormIdFor(formType).Some?
    ensures DefaultFormStructure(formType).id == FormIdFor(formType).value
  {
  }

  /** What the forms endpoint answered: a failure, a body that is not a list, or the list of forms. */
  datatype FormsResponse = FormsFailed | NotAList | FormList(forms: seq<ApiFormStructure>)

  /** `data.find(form => form.formId === formId)`. */
  function FindForm(forms: seq<ApiFormStructure>, formId: Option<string>): (r: Option<ApiFormStructure>)
    ensures r.Some? ==> formId.Some? && r.value in forms && r.value.formId == formId.value
    ensures r.Some? ==> exists k :: 0 <= k < |forms| && forms[k] == r.value &&
                          forall j :: 0 <= j < k ==> forms[j].formId != formId.value
    ensures r.None? ==> formId.None? || forall j :: 0 <= j < |forms| ==> forms[j].formId != formId.value
  {
    if formId.None? || forms == [] then None
    else if forms[0].formId == formId.value then Some(forms[0])
    else
      var r := FindForm(forms[1..], formId);
      if r.Some? then
        assert forall j :: 1 <= j < |forms| ==> forms[j] == forms[1..][j - 1];
        r
      else r
  }

  /**
   * The structure fetchFormStructure installs: the normalised matching
   * schema, or the fallback when the fetch failed, the body is not a list,
   * or no form has the formId the requested type maps to.
   */
  function SelectedStructure(formType: string, resp: FormsResponse): (r: FormStructure)
    ensures r.formType == formType
    ensures (resp.FormList? && FindForm(resp.forms, FormIdFor(formType)).Some?) ==>
              var m := FindForm(resp.forms, FormIdFor(formType)).value;
              r.id == m.formId && r.title == m.title && r.sections == BuildSections(m.fields)
    ensures !(resp.FormList? && FindForm(resp.forms, FormIdFor(formType)).Some?) ==>
              r == DefaultFormStructure(formType)
  {
    if resp.FormList? && FindForm(resp.forms, FormIdFor(formType)).Some? then
      var m := FindForm(resp.forms, FormIdFor(formType)).value;
      FormStructure(m.formId, m.title, formType, BuildSections(m.fields))
    else DefaultFormStructure(formType)
  }

  /** An unmapped form type always gets the fallback, whatever the endpoint answered. */
  lemma UnknownTypeFallsBack(formType: string, resp: FormsResponse)
    requires formType !in {"health", "home", "car"}
    ensures SelectedStructure(formType, resp) == DefaultFormStructure(formType)
  {
  }

  // ---------------------------------------------------------------------------
  // Dependent-option responses
  // ---------------------------------------------------------------------------

  /** A property of a JSON object in a dependent-options response. */
  datatype Member = ListMember(items: seq<string>) | OtherMember

  /** The parsed body: a list, an object with its properties in key order, or anything else. */
  datatype OptionsBody = ListBody(items: seq<string>) | ObjectBody(members: seq<(string, Member)>) | OtherBody

  /** A failed request (network error, non-success status, unparsable body) or the parsed body. */
  datatype OptionsFetch = FetchFailed | Received(body: OptionsBody)

  /** The first property whose value is a list. */
  function FirstListMember(members: seq<(string, Member)>): (r: Option<nat>)
    ensures r.Some? ==> r.value < |members| && members[r.value].1.ListMember?
    ensures r.Some? ==> forall j :: 0 <= j < r.value ==> !members[j].1.ListMember?
    ensures r.None? ==> forall j :: 0 <= j < |members| ==> !members[j].1.ListMember?
  {
    if members == [] then None
    else if members[0].1.ListMember? then Some(0)
    else match FirstListMember(members[1..])
      case None => None
      case Some(k) => Some(k + 1)
  }

  /**
   * The option list a dependent-options response yields. The key found in
   * an object is tested for truthiness, so an empty key yields nothing.
   */
  function InterpretOptions(resp: OptionsFetch): (r: seq<OptionPair>)
    ensures forall i :: 0 <= i < |r| ==> r[i].caption == r[i].value
    ensures resp.FetchFailed? || resp.body.OtherBody? ==> r == []
    ensures resp.Received? && resp.body.ListBody? ==>
              |r| == |resp.body.items| && forall i :: 0 <= i < |r| ==> r[i].value == resp.body.items[i]
    ensures resp.Received? && resp.body.ObjectBody? ==>
              match FirstListMember(resp.body.members)
              case None => r == []
              case Some(k) =>
                && (resp.body.members[k].0 == "" ==> r == [])
                && (resp.body.members[k].0 != "" ==>
                      var items := resp.body.members[k].1.items;
                      |r| == |items| && forall i :: 0 <= i < |r| ==> r[i].value == items[i])
  {
    match resp
    case FetchFailed => []
    case Received(ListBody(items)) => SameLabel(items)
    case Received(ObjectBody(members)) =>
      (match FirstListMember(members)
       case Some(k) => if members[k].0 == "" then [] else SameLabel(members[k].1.items)
       case None => [])
    case Received(OtherBody) => []
  }
}
