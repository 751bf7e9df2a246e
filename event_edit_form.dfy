/**
 * Editing an event: the create form's five fields plus the status, loaded
 * with the event's values. Saving overwrites those six fields and keeps the
 * id.
 */
module EventEditForm {
  import opened Wrappers
  import opened Schema
  import opened MockData
  import EventForm

  datatype EditValues = EditValues(fields: EventForm.EventValues, status: Option<string>)

  const StatusNames := ["programado", "en-curso", "finalizado", "cancelado"]

  function Issues(v: EditValues): seq<Issue> {
    Flatten(EventForm.FieldChecks(v.fields) + [EventForm.EnumCheck("status", v.status, StatusNames, "Por favor, selecciona un estado.")])
  }

  predicate Valid(v: EditValues) {
    Issues(v) == []
  }

  lemma ValidIff(v: EditValues)
    ensures Valid(v) <==> EventForm.Valid(v.fields) && v.status.Some? && ParseEventStatus(v.status.value).Some?
  {
    var checks := EventForm.FieldChecks(v.fields) + [EventForm.EnumCheck("status", v.status, StatusNames, "Por favor, selecciona un estado.")];
    assert Valid(v) <==> forall i :: 0 <= i < 6 ==> checks[i].issues == [];
    assert EventForm.Issues(v.fields) == Flatten(checks[..5]);
    assert checks[..5] == EventForm.FieldChecks(v.fields);
    assert forall i :: 0 <= i < 5 ==> checks[..5][i] == checks[i];
    assert checks[5].issues == [] <==> v.status.Some? && v.status.value in StatusNames;
    assert v.status.Some? ==> (v.status.value in StatusNames <==> ParseEventStatus(v.status.value).Some?);
  }

  /** The defaults: the event's own values. */
  function Defaults(e: KarateEvent): (v: EditValues)
    ensures v.fields.name == e.name && v.fields.description == e.description && v.fields.location == e.location
    ensures v.fields.date == Some(e.date)
    ensures v.fields.eventType.Some? && ParseEventType(v.fields.eventType.value) == Some(e.eventType)
    ensures v.status.Some? && ParseEventStatus(v.status.value) == Some(e.status)
  {
    EditValues(
      EventForm.EventValues(e.name, e.description, Some(e.date), e.location, Some(EventTypeName(e.eventType))),
      Some(EventStatusName(e.status)))
  }

  /** `onSubmit`: the event with the six form fields written over it. */
  function Submit(e: KarateEvent, v: EditValues): (r: KarateEvent)
    requires Valid(v)
    ensures r.id == e.id
    ensures r.name == v.fields.name && r.description == v.fields.description && r.location == v.fields.location
    ensures Some(r.date) == v.fields.date
    ensures Some(EventTypeName(r.eventType)) == v.fields.eventType && Some(EventStatusName(r.status)) == v.status
  {
    ValidIff(v);
    EventForm.ValidIff(v.fields);
    e.(name := v.fields.name, description := v.fields.description, date := v.fields.date.value,
       location := v.fields.location, eventType := ParseEventType(v.fields.eventType.value).value,
       status := ParseEventStatus(v.status.value).value)
  }

  /** Saving the form as it was loaded gives back the event, when its fields pass the schema. */
  lemma SubmitDefaults(e: KarateEvent)
    requires Valid(Defaults(e))
    ensures Submit(e, Defaults(e)) == e
  {
  }

  /** The loaded form fails only on the text fields: the date, type and status always pass. */
  lemma DefaultsValidIff(e: KarateEvent)
    ensures Valid(Defaults(e)) <==> |e.name| >= 3 && |e.description| >= 10 && |e.location| >= 3
  {
    ValidIff(Defaults(e));
    EventForm.ValidIff(Defaults(e).fields);
  }
}
