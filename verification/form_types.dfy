/**
 * The two shapes of a form schema: the loosely typed one the forms
 * endpoint delivers (ApiFormField, ApiFormStructure) and the canonical one
 * the rest of the engine reads (FormField, FormSection, FormStructure).
 * Optional properties of the TypeScript types become `Option`s; an absent
 * `required` reads as false, as every reader of it treats it.
 */
module FormTypes {
  import opened Values

  /** One `{label, value}` entry of a select or radio list. */
  datatype OptionPair = OptionPair(caption: string, value: string)

  /** The two physical shapes `options` may arrive in. */
  datatype RawOptions = Strings(items: seq<string>) | Pairs(pairs: seq<OptionPair>)

  /** The raw conditional-display block; `condition` is carried but never read. */
  datatype Visibility = Visibility(dependsOn: string, condition: string, value: Value)

  datatype ValidationRules = ValidationRules(
    pattern: Option<string>,
    min: Option<int>,
    max: Option<int>,
    minLength: Option<int>,
    maxLength: Option<int>)

  /** Where a field's option list is fetched from when the field it depends on changes. */
  datatype DynamicOptions = DynamicOptions(dependsOn: string, endpoint: string, httpMethod: string)

  /** A field as delivered; a field of type "group" nests other fields. */
  datatype ApiFormField = ApiFormField(
    id: string,
    caption: string,
    fieldType: string,
    required: bool,
    options: Option<RawOptions>,
    visibility: Option<Visibility>,
    validation: Option<ValidationRules>,
    dynamicOptions: Option<DynamicOptions>,
    fields: Option<seq<ApiFormField>>,
    placeholder: Option<string>,
    description: Option<string>)

  datatype ApiFormStructure = ApiFormStructure(formId: string, title: string, fields: seq<ApiFormField>)

  /** The single-equality display predicate of a canonical field or section. */
  datatype DependsOn = DependsOn(field: string, value: Value)

  datatype FormField = FormField(
    id: string,
    fieldType: string,
    caption: string,
    required: bool,
    options: Option<seq<OptionPair>>,
    dependsOn: Option<DependsOn>,
    validation: Option<ValidationRules>,
    dynamicOptions: Option<DynamicOptions>,
    placeholder: Option<string>,
    description: Option<string>)

  datatype FormSection = FormSection(id: string, title: string, fields: seq<FormField>, dependsOn: Option<DependsOn>)

  datatype FormStructure = FormStructure(id: string, title: string, formType: string, sections: seq<FormSection>)

  /** The ids of a list of fields. */
  function FieldIds(fields: seq<FormField>): (ids: set<string>)
    ensures forall j :: 0 <= j < |fields| ==> fields[j].id in ids
    ensures forall k :: k in ids ==> exists j :: 0 <= j < |fields| && fields[j].id == k
  {
    if fields == [] then {} else FieldIds(fields[..|fields| - 1]) + {fields[|fields| - 1].id}
  }

  /** The ids of the fields of `sections`, in every section. */
  function FieldIdsOf(sections: seq<FormSection>): (ids: set<string>)
    ensures forall i, j :: 0 <= i < |sections| && 0 <= j < |sections[i].fields| ==> sections[i].fields[j].id in ids
    ensures forall k :: k in ids ==>
              exists i, j :: 0 <= i < |sections| && 0 <= j < |sections[i].fields| && sections[i].fields[j].id == k
  {
    if sections == [] then {}
    else FieldIdsOf(sections[..|sections| - 1]) + FieldIds(sections[|sections| - 1].fields)
  }

  /** Every field id reachable in a structure: the keys of its value store. */
  function AllFieldIds(s: FormStructure): set<string> {
    FieldIdsOf(s.sections)
  }
}
