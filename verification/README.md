# Insurance portal form engine: a Dafny model

This project models the form engine of an insurance application portal. The portal is a single-page web application. The model covers four parts of it:

- **The form context** (`src/context/form-context.tsx`):
  - normalises the loosely typed schema from the forms endpoint into sections of canonical fields;
  - falls back to a fixed four-field schema when no schema is usable;
  - keeps the value store (one entry per field, initially `""`);
  - refreshes the option lists of dependent fields when a value changes;
  - keeps one draft slot, saved and loaded on demand and cleared by a successful submission.
- **The dynamic form** (`src/components/dynamic-form.tsx`): shows a section or field only when its single display predicate holds. It validates the shown fields into a map from field id to message.
- **The applications list** (`src/pages/applications.tsx`): search filter, a sort by one column that can be toggled, column visibility, and pages of ten rows.
- **The dashboard** (`src/pages/dashboard.tsx`): count of submissions per insurance type, status badges and the name fallback.

Modules:

| file | module | contents |
|---|---|---|
| `values.dfy` | `Values` | JavaScript values the engine distinguishes (`Str`, `Num`, `Bool`, `Null`, `Undef`): truthiness, `String(v)`, `Number(v)`, `includes` |
| `form_types.dfy` | `FormTypes` | raw and canonical schema types; the field ids of a structure |
| `normalize.dfy` | `Normalize` | field transform, the section build (a step function, the imperative build proved against it, and a reference description), fallback schema, schema selection, option-response interpretation |
| `form_session.dfy` | `FormSession` | the `Session` class: structure, value store, draft slot |
| `validation.dfy` | `Validation` | `shouldDisplay`, the per-field checks, the error map and `validateForm` |
| `submissions.dfy` | `Submissions` | submitted records, cell lookup, status badge |
| `applications.dfy` | `Applications` | filter, comparator, in-place sort, column and page state (`ApplicationsPage` class) |
| `dashboard.dfy` | `Dashboard` | counting loop, display name, row badge |

Calls into code outside the model become parameters:

- A regular-expression test becomes `matches(pattern, text)`.
- Lower-casing becomes `lower`.
- `localeCompare` becomes `localeCompare`. It is assumed consistent: it never orders both `s` before `t` and `t` before `s`.
- The dependent-options endpoint becomes `server(dynamicOptions, value)`.

The answers of the forms endpoint and of the submit endpoint are inputs. So is the parsed content of the draft slot.

Three decisions about the raw shapes:

- A missing `required` reads as `false`, as every reader of it does.
- The schema's `label` is named `caption`, and `dynamicOptions.method` is named `httpMethod`, because `label` and `method` are Dafny keywords.
- A field's `type` is kept as free text, as the code compares it with `"group"` and `"number"` only.

## Model

| member | source | states |
|---|---|---|
| Values.Lookup | src/components/dynamic-form.tsx:18 | reading a key that is not in the store gives `undefined`; a present key gives its value |
| Values.BlankIsFalsy | src/components/dynamic-form.tsx:32-40 | every blank value (`undefined`, `null`, `""`) is falsy; the only falsy values that are not blank are `0` and `false` |
| Values.NatToString | src/components/dynamic-form.tsx:52-55 | decimal text is non-empty, all digits, without a leading zero |
| Values.IntToString | src/components/dynamic-form.tsx:52-55 | the text starts with `-` exactly for negative numbers |
| Values.ParseInt | src/components/dynamic-form.tsx:50 | a number is read exactly when the text is a digit string, or `-` followed by one |
| Values.NatToStringRoundTrip | src/components/dynamic-form.tsx:50-55 | the digits of a natural number read back as that number |
| Values.IntToStringRoundTrip | src/components/dynamic-form.tsx:50-55 | `Number(String(n)) == n` for every integer |
| Values.ToJsString | src/components/dynamic-form.tsx:44 | a string coerces to itself; a number coerces to text that reads back as the number |
| Values.ToNumber | src/components/dynamic-form.tsx:50 | `Number` of a number is itself; of `null`, `""` and `false` is 0; of `undefined` is NaN; of other strings is their parse |
| FormTypes.FieldIds | src/context/form-context.tsx:215-217 | every field's id is in the set, and every id in the set belongs to some field |
| FormTypes.FieldIdsOf | src/context/form-context.tsx:213-218 | the same, over all fields of all sections |
| Normalize.SameLabel | src/context/form-context.tsx:113-116 | each string becomes a pair with that string as label and value; length and order are kept |
| Normalize.TransformOptions | src/context/form-context.tsx:110-121 | string options map element-wise to label = value pairs (same length, same order); pair lists, the empty list included, pass through unchanged |
| Normalize.TransformField | src/context/form-context.tsx:106-144 | id, type, label, required, validation, dynamicOptions, placeholder and description are copied; options are present exactly when present in the raw field, and normalised; `dependsOn` is present exactly when `visibility` is, with its field and value |
| Normalize.ConditionIgnored | src/context/form-context.tsx:124-130 | the visibility `condition` has no influence on the canonical field |
| Normalize.TransformFields | src/context/form-context.tsx:101-103 | same length; element `i` is the transform of raw field `i` |
| Normalize.TransformFieldsAppend | src/context/form-context.tsx:101-103 | transforming a concatenation concatenates the transforms |
| Normalize.GroupSection | src/context/form-context.tsx:64-71 | a group becomes a section with the group's id, its label as title, and its nested fields transformed in order (none when it has none) |
| Normalize.FindSection | src/context/form-context.tsx:75 | the index of the first section with the id, or none when no section has it |
| Normalize.AddField | src/context/form-context.tsx:63-87 | one step of the grouping loop: a group appends its own section; any other field is appended to the first section with id `general`, which is created at the end when there is none |
| Normalize.BuildSections | src/context/form-context.tsx:60-88 | the sections after each field in turn has been added from an empty list |
| Normalize.TransformFormStructure | src/context/form-context.tsx:57-98 | id is the raw formId, title the raw title, type the requested type; the sections are those the one-step-per-field build gives |
| Normalize.OnlyGroups | src/context/form-context.tsx:63-71 | without ungrouped fields the sections are exactly the groups' sections, in order |
| Normalize.GeneralCollects | src/context/form-context.tsx:73-86 | once the first "general" section exists, later groups are appended after all sections and later ungrouped fields join that section, in order |
| Normalize.SynthesizedGeneral | src/context/form-context.tsx:60-88 | when an ungrouped field comes first (no group named "general" before it), exactly one "General Information" section is created at its position; it holds every ungrouped field in encounter order, and the groups keep their own sections around it |
| Normalize.GeneralGroupAbsorbs | src/context/form-context.tsx:73-86 | when a group named "general" comes before every ungrouped field, no section is created; the ungrouped fields are appended to that group's fields |
| Normalize.Capitalize | src/context/form-context.tsx:148 | same length; the first character is upper-cased (ASCII letters only) and the rest kept |
| Normalize.DefaultFormStructure | src/context/form-context.tsx:147-188 | id `<type>_insurance_application`; one section `personal_info` titled "Personal Information" with the four required fields first_name, last_name, email, phone |
| Normalize.FormIdFor | src/context/form-context.tsx:200-206 | a formId exists exactly for health, home and car |
| Normalize.FallbackSharesMappedId | src/context/form-context.tsx:149-206 | for a mapped type the fallback carries the formId the schema is looked up by |
| Normalize.FindForm | src/context/form-context.tsx:207 | the first form with the formId, or none when no form has it (or the type has no formId) |
| Normalize.SelectedStructure | src/context/form-context.tsx:190-262 | the normalised matching schema when the answer is a list holding it; otherwise (failure, not a list, no match) the fallback |
| Normalize.UnknownTypeFallsBack | src/context/form-context.tsx:200-221 | an unmapped type always yields the fallback |
| Normalize.FirstListMember | src/context/form-context.tsx:35 | the first property whose value is a list, or none |
| Normalize.InterpretOptions | src/context/form-context.tsx:11-47 | every option has label = value; a list maps element-wise; an object maps its first list-valued property the same way, unless that property's key is the (falsy) empty string; any other shape, no list-valued property, or a failure gives `[]` |
| FormSession.InitialValues | src/context/form-context.tsx:213-218 | the store's keys are exactly the field ids of all sections, each mapped to `""` |
| FormSession.FallbackStoreNonEmpty | src/context/form-context.tsx:225-230 | the fallback's store holds `first_name` |
| FormSession.AllFields | src/context/form-context.tsx:275-283 | every field of every section is listed, and nothing else |
| FormSession.FilterDependents | src/context/form-context.tsx:277-279 | a field is kept exactly when its dynamic options depend on the edited field |
| FormSession.DependentFields | src/context/form-context.tsx:273-285 | the dependents are exactly the fields, in any section, whose `dynamicOptions.dependsOn` names the edited field |
| FormSession.WithOptions | src/context/form-context.tsx:298-311 | the fields with the given id get the new options; every other field and all section data stay |
| FormSession.Resolved | src/context/form-context.tsx:288-311 | the sections after each dependent with dynamic options in turn had its options replaced by the answer for the new value |
| FormSession.Cleared | src/context/form-context.tsx:313-317 | the store after each dependent with dynamic options in turn had its value set to `""` |
| FormSession.ClearedValues | src/context/form-context.tsx:314-317 | clearing adds exactly the dependents' ids and sets each to `""`; other entries stay |
| FormSession.ResolvedKeepsShape | src/context/form-context.tsx:288-311 | resolving the dependents changes option lists only; sections, ids and all other field data stay |
| FormSession.ResolvedKeepsOthers | src/context/form-context.tsx:298-311 | a field that is not a dependent keeps its options |
| FormSession.ResolvedSetsOptions | src/context/form-context.tsx:288-311 | a dependent ends with the options fetched for it (for the last dependent with its id) |
| FormSession.DependentIsCleared | src/context/form-context.tsx:288-317 | every field depending on the edited field is among the ids cleared |
| FormSession.Serializable | src/context/form-context.tsx:365-371 | the saved values are the store minus its `undefined` entries |
| FormSession.DraftRoundTrip | src/context/form-context.tsx:362-387 | save then load under the same structure restores the saved values, whatever was edited in between |
| FormSession.DraftMismatchIgnored | src/context/form-context.tsx:375-387 | a draft saved under another structure's id leaves the store unchanged |
| FormSession.Session.constructor | src/context/form-context.tsx:50-51 | no structure, an empty store, the slot as stored |
| FormSession.Session.Install | src/context/form-context.tsx:209-218 | the structure is installed and the store reset to `""` for exactly its field ids; the slot is untouched |
| FormSession.Session.FetchFormStructure | src/context/form-context.tsx:190-262 | the selected structure is installed with a fresh all-`""` store over its field ids |
| FormSession.Session.UpdateFormValue | src/context/form-context.tsx:264-321 | the value is written; with a structure, each dependent (resolved one after another) gets its fetched options and `""` as value; all other store entries, fields and sections stay |
| FormSession.Session.SaveDraft | src/context/form-context.tsx:362-373 | no-op without a structure; otherwise the slot holds the structure's id, type and serialisable values |
| FormSession.Session.LoadDraft | src/context/form-context.tsx:375-387 | the store is replaced by the draft's values only when the slot parses and names the installed structure; the slot never changes |
| FormSession.Session.SubmitForm | src/context/form-context.tsx:323-346 | reports the endpoint's verdict; the slot is cleared exactly on success |
| Validation.ShouldDisplay | src/components/dynamic-form.tsx:16-19 | the display predicate: none, or the stored value strictly equal to the expected one |
| Validation.ShouldDisplayMeaning | src/components/dynamic-form.tsx:16-19 | no predicate means shown; otherwise shown exactly when the stored value (or `undefined`) strictly equals the expected value |
| Validation.FieldError | src/components/dynamic-form.tsx:29-68 | a blank required field gets exactly "`<label>` is required"; a falsy optional field gets nothing; otherwise there is an error exactly when some check fails; the last failing check in the order pattern, minimum, maximum, minimum length, maximum length decides the message: a failing maximum length wins over all others, then minimum length, then maximum ("must be at most"), then minimum ("must be at least"), and "format is invalid" only when no other check fails |
| Validation.BlankNeverChecked | src/components/dynamic-form.tsx:32-40 | a blank value yields the required message or nothing, never a later check's message |
| Validation.AgeBelowMinimum | src/components/dynamic-form.tsx:49-57 | a number field "Age" with minimum 18 and value "10" gets "Age must be at least 18" |
| Validation.AgeAboveMinimum | src/components/dynamic-form.tsx:49-57 | the same field with value "40" gets no error |
| Validation.FieldsKeys | src/components/dynamic-form.tsx:27-69 | after a section's fields, a key is present exactly when it was before or a shown field with that id failed |
| Validation.FieldsKeepOthers | src/components/dynamic-form.tsx:27-69 | an entry whose id no field of the section carries stays |
| Validation.FieldsSetOwn | src/components/dynamic-form.tsx:27-69 | a failing field whose id is unique in the section leaves its own message |
| Validation.SectionsKeys | src/components/dynamic-form.tsx:25-70 | error keys are exactly the ids of failing shown fields in shown sections |
| Validation.SectionsMessage | src/components/dynamic-form.tsx:25-70 | with distinct ids, each failing field's id carries that field's message |
| Validation.ErrorsMeaning | src/components/dynamic-form.tsx:22-73 | the keys are exactly the failing shown fields' ids; the map is empty exactly when no shown field fails; with distinct ids each key carries its field's message |
| Validation.HiddenNeverReported | src/components/dynamic-form.tsx:26-28 | a hidden field, or any field of a hidden section, never has an entry (ids distinct) |
| Validation.CheckField | src/components/dynamic-form.tsx:29-68 | the checks run in order on the running map leave exactly the field's message, or no change |
| Validation.CheckRange | src/components/dynamic-form.tsx:49-57 | the minimum check, then the maximum check, overwrite the field's entry when they fail |
| Validation.CheckLength | src/components/dynamic-form.tsx:59-66 | the minimum-length check, then the maximum-length check, overwrite the field's entry when they fail |
| Validation.ValidateForm | src/components/dynamic-form.tsx:22-74 | the nested loops build exactly the error map; the result is true exactly when the map is empty |
| Submissions.Get | src/pages/applications.tsx:67-68 | a missing cell reads as `undefined`; otherwise the first cell with the name |
| Submissions.BadgeVariant | src/pages/dashboard.tsx:112-118 | "Approved" is success, "Pending" is warning, everything else is destructive (each an if-and-only-if) |
| Dashboard.TotalApplications | src/pages/dashboard.tsx:16 | the number of submissions |
| Dashboard.CountOf | src/pages/dashboard.tsx:20-26 | no key counts more records than there are |
| Dashboard.CountedIffPresent | src/pages/dashboard.tsx:20-26 | a key is counted exactly when some record has that truthy type |
| Dashboard.CountByType | src/pages/dashboard.tsx:16-26 | the keys are exactly the types with a count; each entry is that count and at least 1; the counts sum to the number of typed records, at most the total |
| Dashboard.DisplayName | src/pages/dashboard.tsx:107 | the name shown is always truthy: the full name when truthy, else "Unnamed Application" |
| Dashboard.RowBadge | src/pages/dashboard.tsx:112-118 | success exactly for "Approved", warning exactly for "Pending" |
| Applications.Survives | src/pages/applications.tsx:54-59 | a row is kept when it is present and some cell other than `id`, neither `undefined` nor `null`, contains the lower-cased term in its lower-cased text |
| Applications.FilterRows | src/pages/applications.tsx:53-60 | the result holds only surviving rows of the input, and every surviving row; never more rows than the input |
| Applications.FilterRowsAppend | src/pages/applications.tsx:53-60 | filtering a concatenation is the concatenation of the filtered parts, so the kept rows stay in input order |
| Applications.FilterRowsOne | src/pages/applications.tsx:53-60 | one row is kept exactly when it survives |
| Applications.FilterCounts | src/pages/applications.tsx:53-60 | each surviving row is kept as often as it occurs; the others are dropped |
| Applications.EmptyTermKeeps | src/pages/applications.tsx:55-58 | with an empty term, any present record with a set cell other than `id` survives |
| Applications.Compare | src/pages/applications.tsx:63-83 | a missing row or an `undefined` cell on either side compares equal (0); two numbers compare by difference; otherwise the lower-cased texts go to `localeCompare`, swapped for "desc" |
| Applications.DescendingReverses | src/pages/applications.tsx:72-82 | comparing descending is comparing ascending with the two rows swapped |
| Applications.CompareConsistent | src/pages/applications.tsx:62-84 | the comparator never orders both ways, given a consistent `localeCompare` |
| Applications.NumbersCompareByValue | src/pages/applications.tsx:71-73 | two numbers compare by their difference, `a - b` ascending and `b - a` for "desc", so the sign orders them by value |
| Applications.TextsCompareByLocale | src/pages/applications.tsx:75-82 | two defined cells that are not both numbers compare as `localeCompare` of their lower-cased sort texts, the operands swapped for "desc" |
| Applications.SortText | src/pages/applications.tsx:75-76 | a string cell sorts as itself; `null`, `0` and `false` sort as the empty string; any other number sorts as its decimal text |
| Applications.SortRows | src/pages/applications.tsx:63-84 | the rows are permuted in place and every two neighbours end in order |
| Applications.ColumnsOf | src/pages/applications.tsx:35 | the columns are exactly the record's keys other than `id` |
| Applications.ColumnsAppend | src/pages/applications.tsx:35 | the columns of two concatenated records are those of the first followed by those of the second, so key order is kept |
| Applications.ColumnsOne | src/pages/applications.tsx:35 | a single key is a column exactly when it is not `id` |
| Applications.Toggled | src/pages/applications.tsx:102-107 | the toggled column's flag is negated (absent counts as hidden); every other entry stays |
| Applications.ToggleTwice | src/pages/applications.tsx:102-107 | toggling a column twice restores which columns are shown |
| Applications.VisibleColumns | src/pages/applications.tsx:109 | exactly the shown columns, never more than there are |
| Applications.VisibleColumnsAppend | src/pages/applications.tsx:109 | the shown columns of a concatenation are those of each part, one after the other, so column order is kept |
| Applications.VisibleColumnsOne | src/pages/applications.tsx:109 | one column is listed exactly when its flag is true |
| Applications.AllShown | src/pages/applications.tsx:37-41 | when every column is shown, the visible columns are all of them in order |
| Applications.InitialVisibility | src/pages/applications.tsx:37-41 | every column gets an entry, and every entry is true |
| Applications.TotalPages | src/pages/applications.tsx:112 | the fewest pages of ten that hold all rows (ceiling) |
| Applications.SliceIndex | src/pages/applications.tsx:113 | a `slice` bound always lands inside the sequence |
| Applications.PageRows | src/pages/applications.tsx:113 | at most ten rows, each the row at its offset on the page; pages up to the last are non-empty, later ones empty |
| Applications.PagesCover | src/pages/applications.tsx:112-113 | the pages one after another list every row once, in order |
| Applications.PreviousPage | src/pages/applications.tsx:233 | one page back, never below 1 |
| Applications.NextPage | src/pages/applications.tsx:244 | one page on while below the last page; otherwise the last page (`Math.min(p + 1, totalPages)`); stays at least 1 when there is a page |
| Applications.NextSort | src/pages/applications.tsx:93-100 | the clicked column becomes the sort column; the same column flips direction, a new one starts ascending |
| Applications.SortTwice | src/pages/applications.tsx:93-100 | two clicks on the sort column restore its direction; two clicks on a new column sort it descending |
| Applications.ApplicationsPage.constructor | src/pages/applications.tsx:19-25 | unsorted, ascending, no columns, no rows, page 1 |
| Applications.ApplicationsPage.HandleSort | src/pages/applications.tsx:93-100 | the sort state moves as the sort toggle says |
| Applications.ApplicationsPage.ToggleColumnVisibility | src/pages/applications.tsx:102-107 | the flags become the toggled flags |
| Applications.ApplicationsPage.DeriveColumns | src/pages/applications.tsx:32-49 | no submissions changes nothing; a missing first entry leaves no columns; otherwise its keys other than `id` are the columns, all shown |
| Applications.ApplicationsPage.Refresh | src/pages/applications.tsx:51-91 | the listed rows are a permutation of the filtered rows; unsorted when no sort column is chosen, else every two neighbours in comparator order |
| Applications.ApplicationsPage.Paginated | src/pages/applications.tsx:113 | the current page holds at most ten rows |
| Applications.ApplicationsPage.Previous | src/pages/applications.tsx:233 | the page becomes the previous page |
| Applications.ApplicationsPage.Next | src/pages/applications.tsx:244 | the page becomes the next page, bounded by the page count |

## Left out

- The network requests, their URLs and the query string of the dependent-options request are not modelled. Their outcomes arrive as `FormsResponse`, `OptionsFetch` and the submit verdict. The dependent-options server is a pure function of the dependent's settings and the new value: two identical requests get identical answers, which the real endpoint need not give. No proved property depends on this.
- JSON parsing and `localStorage` are not modelled. The slot holds either a parsed draft or unreadable text. Text that parses but has no `formId`, or is not an object, is modelled as unreadable text. Loading it then leaves the store unchanged, as happens in the source once a structure is installed, where such a value never matches the installed form's id.
- The 30-second autosave timer, React state batching and the interleaving of asynchronous updates are not modelled. `UpdateFormValue` runs its dependents to completion, one after another.
- The regular-expression engine, Unicode lower-casing and `localeCompare` are parameters. `localeCompare` is required to be consistent.
- Values.ToNumber: reads integers written as digit strings with an optional leading minus only. A leading `+`, whitespace, fractions, exponents, hexadecimal and `Infinity` read as NaN, where `Number` would read some of them as numbers. Number values are integers; floating point is not modelled.
- Normalize.Capitalize: ASCII upper case only. The platform's `toUpperCase` is Unicode-aware and can lengthen the text ("ß" becomes "SS"), which the model's same-length result does not cover.
- Validation.FieldError: string lengths count characters, not UTF-16 code units.
- Objects and arrays as store or cell values are not modelled; a value is a string, an integer, a boolean, `null` or `undefined`.
- Normalize.TransformOptions: raw options are either all strings or all pairs; a mixed list is not modelled.
- Normalize.InterpretOptions: list elements are taken to be strings; other element types are not modelled.
- Normalize.FormIdFor: keys inherited from the object prototype (such as `constructor`) are not modelled; they map to no formId. Raw forms always carry a formId, so a type without a formId never matches a form.
- Dashboard.CountByType: records are present; a `null` entry, on which the page's property read fails, is not modelled.
- FormSession.Serializable: `undefined` entries are dropped from a saved draft; nested values are not modelled.
- The `toFixed` percentage display on the dashboard, `console.error` logging and every rendering component (`src/components/form-field.tsx`, `src/pages/apply.tsx`, navigation, layout, SEO) are not part of this model.
- Applications.SortRows: the model's sort is stable, like the platform's, so the two agree when the comparator is a consistent total order. A column that mixes numbers and text breaks transitivity: `9` and `"9"` compare equal, `9 < 10`, yet `"10"` sorts before `"9"`. The platform's order is then implementation-defined, and the `InOrder` guarantee holds for the model's sort only.
