/**
 * Editing an athlete's points and medal counts: four numbers, each a
 * non-negative integer, preset from the athlete, and merged back into the
 * athlete on submit without touching anything else.
 */
module RankingEditForm {
  import opened Schema
  import opened MockData

  /** The four fields as the resolver receives them after `z.coerce.number()`. */
  datatype Scores = Scores(ranking: JsNumber, oro: JsNumber, plata: JsNumber, bronce: JsNumber)

  const RankingIntMessage := "El ranking debe ser un número entero."
  const RankingNegMessage := "El ranking no puede ser negativo."
  const MedalIntMessage := "El número de medallas debe ser un entero."
  const MedalNegMessage := "El número de medallas no puede ser negativo."

  function ScoreChecks(s: Scores): (checks: seq<FieldCheck>)
    ensures WellFormed(checks) && |checks| == 4
  {
    [ NonNegativeInt("ranking", s.ranking, RankingIntMessage, RankingNegMessage),
      NonNegativeInt("oro", s.oro, MedalIntMessage, MedalNegMessage),
      NonNegativeInt("plata", s.plata, MedalIntMessage, MedalNegMessage),
      NonNegativeInt("bronce", s.bronce, MedalIntMessage, MedalNegMessage) ]
  }

  function ScoreIssues(s: Scores): seq<Issue> {
    Flatten(ScoreChecks(s))
  }

  predicate IsCount(n: JsNumber) {
    n.Finite? && n.x >= 0.0 && n.x == n.x.Floor as real
  }

  predicate ScoresValid(s: Scores) {
    ScoreIssues(s) == []
  }

  /** The form is valid exactly when each of the four numbers is a non-negative integer. */
  lemma ScoresValidIff(s: Scores)
    ensures ScoresValid(s) <==> IsCount(s.ranking) && IsCount(s.oro) && IsCount(s.plata) && IsCount(s.bronce)
  {
    var checks := ScoreChecks(s);
    assert checks[0].issues == [] <==> IsCount(s.ranking);
    assert checks[1].issues == [] <==> IsCount(s.oro);
    assert checks[2].issues == [] <==> IsCount(s.plata);
    assert checks[3].issues == [] <==> IsCount(s.bronce);
  }

  /** A negative whole number of silver medals is reported with the medal message. */
  lemma NegativePlataReported(s: Scores, n: int)
    requires s.plata == Finite(n as real) && n < 0
    ensures Issue("plata", MedalNegMessage) in ScoreIssues(s)
  {
    var checks := ScoreChecks(s);
    assert Issue("plata", MedalNegMessage) in checks[2].issues;
    assert ScoreIssues(s) == checks[0].issues + Flatten(checks[1..]);
    assert checks[1..][1..] == checks[2..];
    assert Flatten(checks[1..]) == checks[1].issues + Flatten(checks[2..]);
    assert Flatten(checks[2..]) == checks[2].issues + Flatten(checks[3..]);
  }

  /**
   * The values the form starts from and is reset to, each `x || 0`: since
   * 0 falls back to 0, every field is the athlete's own value.
   */
  function Defaults(a: Athlete): (s: Scores)
    ensures s == Scores(Finite(a.ranking as real), Finite(a.oro as real), Finite(a.plata as real), Finite(a.bronce as real))
  {
    Scores(
      Finite((if a.ranking != 0 then a.ranking else 0) as real),
      Finite((if a.oro != 0 then a.oro else 0) as real),
      Finite((if a.plata != 0 then a.plata else 0) as real),
      Finite((if a.bronce != 0 then a.bronce else 0) as real))
  }

  /** An athlete can be saved unchanged exactly when none of its four numbers is negative. */
  lemma DefaultsValidIff(a: Athlete)
    ensures ScoresValid(Defaults(a)) <==> a.ranking >= 0 && a.oro >= 0 && a.plata >= 0 && a.bronce >= 0
  {
    ScoresValidIff(Defaults(a));
    assert (a.ranking as real).Floor == a.ranking;
    assert (a.oro as real).Floor == a.oro;
    assert (a.plata as real).Floor == a.plata;
    assert (a.bronce as real).Floor == a.bronce;
  }

  /** Some generated athletes cannot be saved without first correcting their numbers. */
  lemma SomeDefaultsInvalid()
    ensures !ScoresValid(Defaults(AthleteAt(2025, 16)))
    ensures !ScoresValid(Defaults(AthleteAt(2025, 24)))
  {
    Round16Medals();
    DefaultsValidIff(AthleteAt(2025, 16));
    RankingShape(24, 24);
    DefaultsValidIff(AthleteAt(2025, 24));
  }

  /** `{...athlete, ...values}`: the athlete with its four numbers replaced. */
  function Apply(a: Athlete, s: Scores): (r: Athlete)
    requires ScoresValid(s)
    ensures IsCount(s.ranking) && IsCount(s.oro) && IsCount(s.plata) && IsCount(s.bronce)
    ensures r == a.(ranking := s.ranking.x.Floor, oro := s.oro.x.Floor, plata := s.plata.x.Floor, bronce := s.bronce.x.Floor)
    ensures r.id == a.id && r.nombres == a.nombres && r.apellidos == a.apellidos && r.cedula == a.cedula
  {
    ScoresValidIff(s);
    a.(ranking := s.ranking.x.Floor, oro := s.oro.x.Floor, plata := s.plata.x.Floor, bronce := s.bronce.x.Floor)
  }

  /** Submitting the untouched form gives back the athlete. */
  lemma ApplyDefaults(a: Athlete)
    requires ScoresValid(Defaults(a))
    ensures Apply(a, Defaults(a)) == a
  {
  }

  /** Submitting twice with the same numbers is submitting once. */
  lemma ApplyIdempotent(a: Athlete, s: Scores)
    requires ScoresValid(s)
    ensures Apply(Apply(a, s), s) == Apply(a, s)
  {
  }

  /** `onSubmit`: the merged athlete, handed once to `onSuccess`. */
  method Submit(a: Athlete, s: Scores) returns (updated: Athlete)
    requires ScoresValid(s)
    ensures updated == Apply(a, s)
  {
    updated := Apply(a, s);
  }
}
