/**
 * The form session of the form context: the installed structure, the
 * value store and the single draft slot. Installing a structure resets
 * the store; editing a value refreshes the option lists of the fields
 * that depend on it; drafts are saved to and restored from one slot.
 * Network answers and the parsed slot text come in as arguments.
 */
module FormSession {
  import opened Values
  import opened FormTypes
  import opened Normalize

  // ---------------------------------------------------------------------------
  // Initial values
  // ---------------------------------------------------------------------------

  /** The store a freshly installed structure starts with: every field id mapped to "". */
  method InitialValues(s: FormStructure) returns (m: map<string, Value>)
    ensures m.Keys == AllFieldIds(s)
    ensures forall k :: k in m ==> m[k] == Str("")
  {
    m := map[];
    var i := 0;
    while i < |s.sections|
      invariant 0 <= i <= |s.sections|
      invariant m.Keys == FieldIdsOf(s.sections[..i])
      invariant forall k :: k in m ==> m[k] == Str("")
    {
      var fields := s.sections[i].fields;
      var j := 0;
      while j < |fields|
        invariant 0 <= j <= |fields|
        invariant m.Keys == FieldIdsOf(s.sections[..i]) + FieldIds(fields[..j])
        invariant forall k :: k in m ==> m[k] == Str("")
      {
        m := m[fields[j].id := Str("")];
        assert fields[..j + 1][..j] == fields[..j];
        j := j + 1;
      }
      assert fields[..j] == fields;
      assert s.sections[..i + 1][..i] == s.sections[..i];
      i := i + 1;
    }
    assert s.sections[..i] == s.sections;
  }

  /** The fallback structure always yields a non-empty store. */
  lemma FallbackStoreNonEmpty(formType: string)
    ensures "first_name" in AllFieldIds(DefaultFormStructure(formType))
    ensures |AllFieldIds(DefaultFormStructure(formType))| > 0
  {
    var s := DefaultFormStructure(formType);
    assert s.sections[0].fields[0].id == "first_name";
  }

  // ---------------------------------------------------------------------------
  // Dependent fields
  // ---------------------------------------------------------------------------

  /** Whether `f` takes its options from an endpoint keyed by field `fieldId`. */
  predicate DependsOnField(f: FormField, fieldId: string) {
    f.dynamicOptions.Some? && f.dynamicOptions.value.dependsOn == fieldId
  }

  /** All fields of all sections, section by section. */
  function AllFields(ss: seq<FormSection>): (r: seq<FormField>)
    ensures forall i, j :: 0 <= i < |ss| && 0 <= j < |ss[i].fields| ==> ss[i].fields[j] in r
    ensures forall f :: f in r ==> exists i, j :: 0 <= i < |ss| && 0 <= j < |ss[i].fields| && ss[i].fields[j] == f
  {
    if ss == [] then [] else AllFields(ss[..|ss| - 1]) + ss[|ss| - 1].fields
  }

  function FilterDependents(fs: seq<FormField>, fieldId: string): (r: seq<FormField>)
    ensures forall f :: f in r <==> f in fs && DependsOnField(f, fieldId)
  {
    if fs == [] then []
    else FilterDependents(fs[..|fs| - 1], fieldId)
         + (if DependsOnField(fs[|fs| - 1], fieldId) then [fs[|fs| - 1]] else [])
  }

  /**
   * findDependentFields: in section and field order, the fields whose
   * dynamic options depend on `fieldId`.
   */
  function DependentFields(ss: seq<FormSection>, fieldId: string): (r: seq<FormField>)
    ensures forall f :: f in r ==> DependsOnField(f, fieldId)
    ensures forall f :: f in r ==> exists i, j :: 0 <= i < |ss| && 0 <= j < |ss[i].fields| && ss[i].fields[j] == f
    ensures forall i, j :: 0 <= i < |ss| && 0 <= j < |ss[i].fields| && DependsOnField(ss[i].fields[j], fieldId) ==>
              ss[i].fields[j] in r
  {
    FilterDependents(AllFields(ss), fieldId)
  }

  /** Copy-on-write: every field whose id is `id` gets `options`; nothing else changes. */
  function WithOptions(ss: seq<FormSection>, id: string, options: seq<OptionPair>): (r: seq<FormSection>)
    ensures |r| == |ss|
    ensures forall i :: 0 <= i < |ss| ==>
              r[i].id == ss[i].id && r[i].title == ss[i].title && r[i].dependsOn == ss[i].dependsOn &&
              |r[i].fields| == |ss[i].fields|
    ensures forall i, j :: 0 <= i < |ss| && 0 <= j < |ss[i].fields| ==>
              r[i].fields[j] == if ss[i].fields[j].id == id then ss[i].fields[j].(options := Some(options))
                                else ss[i].fields[j]
  {
    seq(|ss|, i requires 0 <= i < |ss| =>
      ss[i].(fields := seq(|ss[i].fields|, j requires 0 <= j < |ss[i].fields| =>
        if ss[i].fields[j].id == id then ss[i].fields[j].(options := Some(options)) else ss[i].fields[j])))
  }

  /** The option list a dependent field receives when the field it depends on takes `value`. */
  function OptionsFor(d: FormField, value: Value, server: (DynamicOptions, Value) -> OptionsFetch): seq<OptionPair>
    requires d.dynamicOptions.Some?
  {
    InterpretOptions(server(d.dynamicOptions.value, value))
  }

  /** The sections after the dependents `deps` are resolved one after another. */
  function Resolved(ss: seq<FormSection>, deps: seq<FormField>, value: Value,
                    server: (DynamicOptions, Value) -> OptionsFetch): seq<FormSection>
  {
    if deps == [] then ss
    else
      var d := deps[|deps| - 1];
      var prev := Resolved(ss, deps[..|deps| - 1], value, server);
      if d.dynamicOptions.Some? then WithOptions(prev, d.id, OptionsFor(d, value, server)) else prev
  }

  /** The store after the dependents `deps` each had their value cleared. */
  function Cleared(m: map<string, Value>, deps: seq<FormField>): map<string, Value> {
    if deps == [] then m
    else
      var d := deps[|deps| - 1];
      var prev := Cleared(m, deps[..|deps| - 1]);
      if d.dynamicOptions.Some? then prev[d.id := Str("")] else prev
  }

  function IdsOf(deps: seq<FormField>): set<string> {
    set d | d in deps :: d.id
  }

  /** Clearing touches exactly the dependents' ids, and sets each to "". */
  lemma {:induction false} ClearedValues(m: map<string, Value>, deps: seq<FormField>)
    requires forall d :: d in deps ==> d.dynamicOptions.Some?
    ensures Cleared(m, deps).Keys == m.Keys + IdsOf(deps)
    ensures forall k :: k in Cleared(m, deps) ==>
              Cleared(m, deps)[k] == if k in IdsOf(deps) then Str("") else m[k]
    decreases |deps|
  {
    if deps != [] {
      var d, rest := deps[|deps| - 1], deps[..|deps| - 1];
      assert forall e :: e in rest ==> e in deps;
      ClearedValues(m, rest);
      assert deps == rest + [d];
      assert IdsOf(deps) == IdsOf(rest) + {d.id};
    }
  }

  /** The store after an edit of `fieldId` and the clearing of its dependents `deps`. */
  lemma EditedStore(m: map<string, Value>, fieldId: string, value: Value, deps: seq<FormField>)
    requires forall d :: d in deps ==> d.dynamicOptions.Some?
    ensures Cleared(m[fieldId := value], deps).Keys == m.Keys + {fieldId} + IdsOf(deps)
    ensures forall k :: k in Cleared(m[fieldId := value], deps) ==>
              Cleared(m[fieldId := value], deps)[k] ==
                if k in IdsOf(deps) then Str("") else if k == fieldId then value else m[k]
  {
    ClearedValues(m[fieldId := value], deps);
  }

  /** Resolving dependents changes option lists only: every other property of every field and section stays. */
  lemma {:induction false} ResolvedKeepsShape(ss: seq<FormSection>, deps: seq<FormField>, value: Value,
                                              server: (DynamicOptions, Value) -> OptionsFetch)
    ensures |Resolved(ss, deps, value, server)| == |ss|
    ensures forall i :: 0 <= i < |ss| ==>
              var r := Resolved(ss, deps, value, server)[i];
              r.id == ss[i].id && r.title == ss[i].title && r.dependsOn == ss[i].dependsOn &&
              |r.fields| == |ss[i].fields| &&
              forall j :: 0 <= j < |ss[i].fields| ==> r.fields[j].(options := ss[i].fields[j].options) == ss[i].fields[j]
    decreases |deps|
  {
    if deps != [] {
      ResolvedKeepsShape(ss, deps[..|deps| - 1], value, server);
    }
  }

  /** A field whose id is not that of any dependent keeps its options. */
  lemma {:induction false} ResolvedKeepsOthers(ss: seq<FormSection>, deps: seq<FormField>, value: Value,
                                               server: (DynamicOptions, Value) -> OptionsFetch, i: nat, j: nat)
    requires i < |ss| && j < |ss[i].fields|
    requires ss[i].fields[j].id !in IdsOf(deps)
    ensures ResolvedKeepsShapeAt(ss, deps, value, server, i, j)
    ensures Resolved(ss, deps, value, server)[i].fields[j] == ss[i].fields[j]
    decreases |deps|
  {
    ResolvedKeepsShape(ss, deps, value, server);
    if deps != [] {
      var rest := deps[..|deps| - 1];
      assert IdsOf(rest) <= IdsOf(deps);
      ResolvedKeepsOthers(ss, rest, value, server, i, j);
    }
  }

  predicate ResolvedKeepsShapeAt(ss: seq<FormSection>, deps: seq<FormField>, value: Value,
                                 server: (DynamicOptions, Value) -> OptionsFetch, i: nat, j: nat)
    requires i < |ss| && j < |ss[i].fields|
  {
    |Resolved(ss, deps, value, server)| == |ss| &&
    |Resolved(ss, deps, value, server)[i].fields| == |ss[i].fields|
  }

  /**
   * A field whose id is that of dependent `deps[k]`, and of no later
   * dependent, ends up with the options fetched for `deps[k]`.
   */
  lemma {:induction false} ResolvedSetsOptions(ss: seq<FormSection>, deps: seq<FormField>, value: Value,
                                               server: (DynamicOptions, Value) -> OptionsFetch,
                                               k: nat, i: nat, j: nat)
    requires k < |deps| && deps[k].dynamicOptions.Some?
    requires forall k' :: k < k' < |deps| ==> deps[k'].id != deps[k].id
    requires i < |ss| && j < |ss[i].fields| && ss[i].fields[j].id == deps[k].id
    ensures ResolvedKeepsShapeAt(ss, deps, value, server, i, j)
    ensures Resolved(ss, deps, value, server)[i].fields[j] ==
            ss[i].fields[j].(options := Some(OptionsFor(deps[k], value, server)))
    decreases |deps|
  {
    ResolvedKeepsShape(ss, deps, value, server);
    var rest := deps[..|deps| - 1];
    ResolvedKeepsShape(ss, rest, value, server);
    if k < |deps| - 1 {
      ResolvedSetsOptions(ss, rest, value, server, k, i, j);
    } else {
      var prev := Resolved(ss, rest, value, server);
      assert prev[i].fields[j].id == ss[i].fields[j].id by {
        assert prev[i].fields[j].(options := ss[i].fields[j].options) == ss[i].fields[j];
      }
      assert prev[i].fields[j].(options := Some(OptionsFor(deps[k], value, server))) ==
             ss[i].fields[j].(options := Some(OptionsFor(deps[k], value, server))) by {
        assert prev[i].fields[j].(options := ss[i].fields[j].options) == ss[i].fields[j];
      }
    }
  }

  // ---------------------------------------------------------------------------
  // Drafts
  // ---------------------------------------------------------------------------

  /** The persisted record: the structure's identity and the values. */
  datatype Draft = Draft(formId: string, formType: string, values: map<string, Value>)

  /** The slot's text as JSON.parse sees it: a draft, or text that does not parse. */
  datatype SlotText = Readable(draft: Draft) | Unreadable

  /** JSON.stringify leaves out every property whose value is undefined. */
  function Serializable(values: map<string, Value>): (r: map<string, Value>)
    ensures r.Keys == set k | k in values && values[k] != Undef
    ensures forall k :: k in r ==> r[k] == values[k]
  {
    map k | k in values && values[k] != Undef :: values[k]
  }

  /** The slot after saveDraft: unchanged without a structure, else the structure's identity and the values. */
  function SavedSlot(structure: Option<FormStructure>, values: map<string, Value>, slot: Option<SlotText>): Option<SlotText> {
    if structure.None? then slot
    else Some(Readable(Draft(structure.value.id, structure.value.formType, Serializable(values))))
  }

  /** The store after loadDraft: the draft's values when it parses and names the installed structure. */
  function LoadedValues(slot: Option<SlotText>, structure: Option<FormStructure>, values: map<string, Value>): map<string, Value> {
    if slot.Some? && slot.value.Readable? && structure.Some? && slot.value.draft.formId == structure.value.id
    then slot.value.draft.values
    else values
  }

  /** Saving and then loading under the same structure restores the saved values, whatever was edited in between. */
  lemma DraftRoundTrip(s: FormStructure, saved: map<string, Value>, slot: Option<SlotText>, current: map<string, Value>)
    ensures LoadedValues(SavedSlot(Some(s), saved, slot), Some(s), current) == Serializable(saved)
    ensures (forall k :: k in saved ==> saved[k] != Undef) ==>
              LoadedValues(SavedSlot(Some(s), saved, slot), Some(s), current) == saved
  {
  }

  /** A draft saved under another structure's identity leaves the store as it is. */
  lemma DraftMismatchIgnored(s: FormStructure, other: FormStructure, saved: map<string, Value>,
                             slot: Option<SlotText>, current: map<string, Value>)
    requires other.id != s.id
    ensures LoadedValues(SavedSlot(Some(s), saved, slot), Some(other), current) == current
  {
  }

  // ---------------------------------------------------------------------------
  // The session
  // ---------------------------------------------------------------------------

  class Session {
    var structure: Option<FormStructure>
    var values: map<string, Value>
    var draftSlot: Option<SlotText>

    /** A new session: no structure, an empty store, and whatever the slot already holds. */
    constructor (stored: Option<SlotText>)
      ensures structure == None && values == map[] && draftSlot == stored
    {
      structure := None;
      values := map[];
      draftSlot := stored;
    }

    /** setFormStructure with the matching initial values. */
    method Install(s: FormStructure)
      modifies this
      ensures structure == Some(s)
      ensures values.Keys == AllFieldIds(s) && forall k :: k in values ==> values[k] == Str("")
      ensures draftSlot == old(draftSlot)
    {
      structure := Some(s);
      values := InitialValues(s);
    }

    /**
     * fetchFormStructure: the normalised schema for the requested type, or
     * the fallback; either way the store is reset to all-empty.
     */
    method FetchFormStructure(formType: string, resp: FormsResponse)
      modifies this
      ensures structure == Some(SelectedStructure(formType, resp))
      ensures values.Keys == AllFieldIds(structure.value) && forall k :: k in values ==> values[k] == Str("")
      ensures draftSlot == old(draftSlot)
    {
      if resp.FormList? {
        var formId := FormIdFor(formType);
        var matching := FindForm(resp.forms, formId);
        if matching.Some? {
          var transformed := TransformFormStructure(matching.value, formType);
          Install(transformed);
        } else {
          Install(DefaultFormStructure(formType));
        }
      } else {
        Install(DefaultFormStructure(formType));
      }
    }

    /**
     * updateFormValue: write the value, then, one dependent field after
     * another, install the options fetched for it and clear its value.
     */
    method UpdateFormValue(fieldId: string, value: Value, server: (DynamicOptions, Value) -> OptionsFetch)
      modifies this
      ensures draftSlot == old(draftSlot)
      ensures old(structure).None? ==> structure == None && values == old(values)[fieldId := value]
      ensures old(structure).Some? ==>
                var deps := DependentFields(old(structure).value.sections, fieldId);
                && structure == Some(old(structure).value.(sections := Resolved(old(structure).value.sections, deps, value, server)))
                && values.Keys == old(values).Keys + {fieldId} + IdsOf(deps)
                && forall k :: k in values ==>
                     values[k] == if k in IdsOf(deps) then Str("") else if k == fieldId then value else old(values)[k]
    {
      values := values[fieldId := value];
      if structure.Some? {
        ghost var s0, v0 := structure.value, values;
        var deps := DependentFields(structure.value.sections, fieldId);
        var i := 0;
        while i < |deps|
          invariant 0 <= i <= |deps|
          invariant structure == Some(s0.(sections := Resolved(s0.sections, deps[..i], value, server)))
          invariant values == Cleared(v0, deps[..i])
          invariant draftSlot == old(draftSlot)
        {
          var dependent := deps[i];
          assert deps[..i + 1][..i] == deps[..i];
          if dependent.dynamicOptions.Some? {
            var options := InterpretOptions(server(dependent.dynamicOptions.value, value));
            structure := Some(structure.value.(sections := WithOptions(structure.value.sections, dependent.id, options)));
            values := values[dependent.id := Str("")];
          }
          i := i + 1;
        }
        assert deps[..i] == deps;
        EditedStore(old(values), fieldId, value, deps);
      }
    }

    /** saveDraft: without a structure nothing happens; otherwise the slot is overwritten. */
    method SaveDraft()
      modifies this`draftSlot
      ensures draftSlot == SavedSlot(structure, values, old(draftSlot))
      ensures structure.Some? ==>
                (draftSlot.Some? && draftSlot.value.Readable? &&
                 draftSlot.value.draft.formId == structure.value.id &&
                 draftSlot.value.draft.formType == structure.value.formType)
    {
      if structure.Some? {
        draftSlot := Some(Readable(Draft(structure.value.id, structure.value.formType, Serializable(values))));
      }
    }

    /**
     * loadDraft: the store is replaced wholesale by a draft that parses and
     * names the installed structure; otherwise nothing changes. The slot is
     * never touched.
     */
    method LoadDraft()
      modifies this`values
      ensures values == LoadedValues(draftSlot, structure, old(values))
    {
      if draftSlot.Some? {
        match draftSlot.value
        case Readable(draft) =>
          if structure.Some? && draft.formId == structure.value.id {
            values := draft.values;
          }
        case Unreadable =>
      }
    }

    /** submitForm: reports the endpoint's verdict; only a success clears the slot. */
    method SubmitForm(accepted: bool) returns (ok: bool)
      modifies this`draftSlot
      ensures ok == accepted
      ensures draftSlot == if accepted then None else old(draftSlot)
    {
      if accepted {
        draftSlot := None;
        ok := true;
      } else {
        ok := false;
      }
    }
  }

  /**
   * Every field that depends on the edited field is among the ids the edit
   * clears: whatever value it held before, it reads "" afterwards.
   */
  lemma DependentIsCleared(ss: seq<FormSection>, fieldId: string, i: nat, j: nat)
    requires i < |ss| && j < |ss[i].fields|
    requires DependsOnField(ss[i].fields[j], fieldId)
    ensures ss[i].fields[j].id in IdsOf(DependentFields(ss, fieldId))
  {
    assert ss[i].fields[j] in DependentFields(ss, fieldId);
  }
}
