/** The form validator: reads the required fields of a submitted form, marks the empty
    ones with the error mark and hands back either every field or nothing. */
module Forms {
  import opened Habits

  /** The value the form data gives for a field. A field missing from the form (null)
      and an empty one are both falsy; both are read here as the empty string. */
  function FieldValue(form: map<string, string>, field: string): string {
    if field in form then form[field] else ""
  }

  /** The field holds a truthy value. */
  predicate Filled(form: map<string, string>, field: string) {
    FieldValue(form, field) != ""
  }

  /** After validation the required fields carry the error mark exactly when they are
      empty, and every other field keeps the mark it had. */
  ghost predicate MarkedAfter(before: set<string>, form: map<string, string>, fields: seq<string>, after: set<string>) {
    (forall f :: f in fields ==> (f in after <==> !Filled(form, f))) &&
    (forall f :: f !in fields ==> (f in after <==> f in before))
  }

  /** `validateAndGetFormData`: `marked` holds the fields carrying the error mark before,
      `marks` those carrying it after. */
  method Validate(form: map<string, string>, fields: seq<string>, marked: set<string>)
    returns (res: Option<map<string, string>>, marks: set<string>)
    ensures res.Some? <==> forall f :: f in fields ==> Filled(form, f)
    ensures res.Some? ==> res.value.Keys == set f | f in fields
    ensures res.Some? ==> forall f :: f in fields ==> f in form && res.value[f] == form[f]
    ensures MarkedAfter(marked, form, fields, marks)
  {
    var collected: map<string, string> := map[];
    var isValid := true;
    marks := marked;
    for i := 0 to |fields|
      invariant isValid <==> forall f :: f in fields[..i] ==> Filled(form, f)
      invariant collected.Keys == set f | f in fields[..i]
      invariant forall f :: f in fields[..i] ==> collected[f] == FieldValue(form, f)
      invariant forall f :: f in fields[..i] ==> (f in marks <==> !Filled(form, f))
      invariant forall f :: f !in fields[..i] ==> (f in marks <==> f in marked)
    {
      var field := fields[i];
      var value := FieldValue(form, field);
      assert fields[..i + 1] == fields[..i] + [field];
      marks := marks - {field};
      if value == "" {
        marks := marks + {field};
        isValid := false;
      }
      collected := collected[field := value];
      assert Filled(form, field) <==> value != "";
    }
    assert fields[..|fields|] == fields;
    res := if isValid then Some(collected) else None;
  }
}
