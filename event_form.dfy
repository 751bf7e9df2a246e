/**
 * Creating an event: a name of at least 3 characters, a description of at
 * least 10, a date, a location of at least 3 and a type. The new event is
 * "programado" when its date lies after the moment of submission and
 * "finalizado" otherwise; its id is "evt-" followed by that moment.
 */
module EventForm {
  import opened Wrappers
  import opened Text
  import opened Schema
  import opened MockData

  /** The form's values; `date` and `eventType` are absent until chosen (timestamps in milliseconds). */
  datatype EventValues = EventValues(
    name: string,
    description: string,
    date: Option<int>,
    location: string,
    eventType: Option<string>)

  /** The form's defaults: the three text fields empty, no date and no type. */
  const Defaults := EventValues("", "", None, "", None)

  const TypeNames := ["competencia", "seminario", "exhibicion"]
  const TypeMessage := "Por favor, selecciona un tipo."

  /** `z.date({ required_error })` */
  const DateMessage := "La fecha es requerida."

  /** `z.enum(options, { errorMap })`: an absent value and a foreign one get the same message. */
  function EnumCheck(path: string, value: Option<string>, options: seq<string>, message: string): (r: FieldCheck)
    ensures r.issues == [] <==> value.Some? && value.value in options
    ensures r.aborted <==> !(value.Some? && value.value in options)
    ensures r.issues != [] ==> r.issues == [Issue(path, message)]
  {
    if value.Some? && value.value in options then Pass else FieldCheck([Issue(path, message)], true)
  }

  /** The field checks of the five fields the create and edit forms share, in field order. */
  function FieldChecks(v: EventValues): (checks: seq<FieldCheck>)
    ensures |checks| == 5
    ensures checks[0].issues == [] <==> |v.name| >= 3
    ensures checks[1].issues == [] <==> |v.description| >= 10
    ensures checks[2].issues == [] <==> v.date.Some?
    ensures checks[3].issues == [] <==> |v.location| >= 3
    ensures checks[4].issues == [] <==> v.eventType.Some? && ParseEventType(v.eventType.value).Some?
  {
    [MinLength("name", v.name, 3, "El nombre debe tener al menos 3 caracteres."),
     MinLength("description", v.description, 10, "La descripción debe tener al menos 10 caracteres."),
     Required("date", v.date, DateMessage),
     MinLength("location", v.location, 3, "La ubicación es requerida."),
     EnumCheck("type", v.eventType, TypeNames, TypeMessage)]
  }

  function Issues(v: EventValues): seq<Issue> {
    Flatten(FieldChecks(v))
  }

  predicate Valid(v: EventValues) {
    Issues(v) == []
  }

  lemma ValidIff(v: EventValues)
    ensures Valid(v) <==> |v.name| >= 3 && |v.description| >= 10 && v.date.Some? && |v.location| >= 3 &&
                          v.eventType.Some? && ParseEventType(v.eventType.value).Some?
  {
    var checks := FieldChecks(v);
    assert Valid(v) <==> forall i :: 0 <= i < 5 ==> checks[i].issues == [];
  }

  /** The status a new event gets from its date and the moment it is created. */
  function InitialStatus(date: int, now: int): (s: EventStatus)
    ensures s == Programado <==> date > now
    ensures s == Finalizado <==> date <= now
  {
    if date > now then Programado else Finalizado
  }

  /**
   * `onSubmit`: the new event, handed to `onSuccess`, and the form cleared
   * afterwards. The schema has no `status` field, so the spread of the
   * values never overrides the computed status.
   */
  function Submit(v: EventValues, now: int): (r: (KarateEvent, EventValues))
    requires Valid(v)
    ensures r.1 == Defaults
    ensures r.0.id == "evt-" + IntToString(now)
    ensures r.0.name == v.name && r.0.description == v.description && r.0.location == v.location
    ensures Some(r.0.date) == v.date && Some(EventTypeName(r.0.eventType)) == v.eventType
    ensures r.0.status == (if r.0.date > now then Programado else Finalizado)
  {
    ValidIff(v);
    var e := KarateEvent(
      id := "evt-" + IntToString(now),
      name := v.name,
      description := v.description,
      date := v.date.value,
      location := v.location,
      eventType := ParseEventType(v.eventType.value).value,
      status := InitialStatus(v.date.value, now));
    (e, Defaults)
  }

  /** Events created at different moments get different ids. */
  lemma SubmitIdsDistinct(v: EventValues, w: EventValues, now1: int, now2: int)
    requires Valid(v) && Valid(w)
    requires now1 != now2
    ensures Submit(v, now1).0.id != Submit(w, now2).0.id
  {
    var a, b := Submit(v, now1).0.id, Submit(w, now2).0.id;
    if a == b {
      assert a[4..] == IntToString(now1) && b[4..] == IntToString(now2);
      IntToStringInjective(now1, now2);
    }
  }

  /** The form comes back cleared, which is not a valid submission. */
  lemma DefaultsInvalid()
    ensures !Valid(Defaults)
  {
    ValidIff(Defaults);
  }
}
