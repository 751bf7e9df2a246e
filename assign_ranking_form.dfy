/**
 * Assigning points and medals to an athlete picked from a list: the
 * picker's options, the form reset that follows every pick, and the merged
 * athlete a submit produces (which also carries the picked id as text).
 */
module AssignRankingForm {
  import opened Wrappers
  import opened Text
  import opened Seqs
  import opened Schema
  import opened MockData
  import opened Combobox
  import opened RankingEditForm

  datatype FormValues = FormValues(athleteId: string, scores: Scores)

  /** The merged athlete: `{...athlete, ...values}` adds the `athleteId` text to the athlete's own fields. */
  datatype AssignedAthlete = AssignedAthlete(athlete: Athlete, athleteId: string)

  function Issues(v: FormValues): seq<Issue> {
    Flatten([MinLength("athleteId", v.athleteId, 1, "Debes seleccionar un atleta.")] + ScoreChecks(v.scores))
  }

  predicate Valid(v: FormValues) {
    Issues(v) == []
  }

  lemma {:induction false} FlattenConcat(a: seq<FieldCheck>, b: seq<FieldCheck>)
    ensures Flatten(a + b) == Flatten(a) + Flatten(b)
  {
    if a != [] {
      assert (a + b)[1..] == a[1..] + b;
      FlattenConcat(a[1..], b);
    } else {
      assert a + b == b;
    }
  }

  /** Valid exactly when an athlete is picked and the four numbers are non-negative integers. */
  lemma ValidIff(v: FormValues)
    ensures Valid(v) <==> v.athleteId != "" && ScoresValid(v.scores)
  {
    var first := MinLength("athleteId", v.athleteId, 1, "Debes seleccionar un atleta.");
    FlattenConcat([first], ScoreChecks(v.scores));
    assert Flatten([first]) == first.issues + Flatten([]);
  }

  /** An option per athlete: the id as text, labelled with the full name and the document. */
  function AthleteOptions(athletes: seq<Athlete>): (items: seq<Item>)
    ensures |items| == |athletes|
    ensures forall k :: 0 <= k < |items| ==>
      items[k] == Item(IntToString(athletes[k].id), athletes[k].nombres + " " + athletes[k].apellidos + " (" + athletes[k].cedula + ")")
  {
    seq(|athletes|, k requires 0 <= k < |athletes| => Item(IntToString(athletes[k].id), athletes[k].nombres + " " + athletes[k].apellidos + " (" + athletes[k].cedula + ")"))
  }

  /** The athlete whose id, as text, is the picked value. */
  function Lookup(athletes: seq<Athlete>, athleteId: string): (r: Option<Athlete>)
    ensures r.Some? ==> r.value in athletes && IntToString(r.value.id) == athleteId
    ensures r.None? ==> forall k :: 0 <= k < |athletes| ==> IntToString(athletes[k].id) != athleteId
  {
    Find(athletes, (a: Athlete) => IntToString(a.id) == athleteId)
  }

  /**
   * The effect that follows a pick: a known athlete loads its id and
   * numbers, anything else clears the pick and zeroes the numbers.
   */
  function Reset(athletes: seq<Athlete>, athleteId: string): (r: (Option<Athlete>, FormValues))
    ensures r.0 == Lookup(athletes, athleteId)
    ensures r.0.Some? ==> r.1 == FormValues(IntToString(r.0.value.id), Defaults(r.0.value))
    ensures r.0.None? ==> r.1 == FormValues("", Scores(Finite(0.0), Finite(0.0), Finite(0.0), Finite(0.0)))
  {
    var found := Lookup(athletes, athleteId);
    if found.Some? then (found, FormValues(IntToString(found.value.id), Defaults(found.value)))
    else (None, FormValues("", Scores(Finite(0.0), Finite(0.0), Finite(0.0), Finite(0.0))))
  }

  /** After an unknown pick the form cannot be submitted: no athlete is picked. */
  lemma UnknownPickInvalid(athletes: seq<Athlete>, athleteId: string)
    requires Reset(athletes, athleteId).0.None?
    ensures !Valid(Reset(athletes, athleteId).1)
  {
    ValidIff(Reset(athletes, athleteId).1);
  }

  predicate DistinctIds(athletes: seq<Athlete>) {
    forall j, k :: 0 <= j < k < |athletes| ==> athletes[j].id != athletes[k].id
  }

  /** With distinct ids, picking the k-th option selects the k-th athlete and loads its numbers. */
  lemma PickOption(athletes: seq<Athlete>, k: int)
    requires DistinctIds(athletes) && 0 <= k < |athletes|
    ensures Reset(athletes, AthleteOptions(athletes)[k].value).0 == Some(athletes[k])
    ensures Reset(athletes, AthleteOptions(athletes)[k].value).1 == FormValues(IntToString(athletes[k].id), Defaults(athletes[k]))
  {
    var v := IntToString(athletes[k].id);
    var p := (a: Athlete) => IntToString(a.id) == v;
    assert p(athletes[k]);
    var f := Find(athletes, p);
    var j :| 0 <= j < |athletes| && athletes[j] == f.value && p(athletes[j]) && forall i :: 0 <= i < j ==> !p(athletes[i]);
    IntToStringInjective(athletes[j].id, athletes[k].id);
  }

  /** `onSubmit`: nothing without a picked athlete; otherwise the merged athlete. */
  function Submit(selected: Option<Athlete>, v: FormValues): (r: Option<AssignedAthlete>)
    requires Valid(v)
    ensures selected.None? ==> r.None?
    ensures selected.Some? ==> r.Some? && r.value.athleteId == v.athleteId
    ensures selected.Some? ==> ScoresValid(v.scores) && r.value.athlete == Apply(selected.value, v.scores)
  {
    ValidIff(v);
    if selected.None? then None else Some(AssignedAthlete(Apply(selected.value, v.scores), v.athleteId))
  }

  /** Picking an athlete and submitting the form untouched hands back that athlete with its own id. */
  lemma PickThenSubmit(athletes: seq<Athlete>, k: int)
    requires DistinctIds(athletes) && 0 <= k < |athletes|
    requires ScoresValid(Defaults(athletes[k]))
    ensures Valid(Reset(athletes, AthleteOptions(athletes)[k].value).1)
    ensures Submit(Reset(athletes, AthleteOptions(athletes)[k].value).0, Reset(athletes, AthleteOptions(athletes)[k].value).1) ==
      Some(AssignedAthlete(athletes[k], IntToString(athletes[k].id)))
  {
    PickOption(athletes, k);
    var v := Reset(athletes, AthleteOptions(athletes)[k].value).1;
    assert |IntToString(athletes[k].id)| > 0;
    ValidIff(v);
    ApplyDefaults(athletes[k]);
  }
}
