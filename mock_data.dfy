/**
 * The demonstration data set: the record types shared by the dashboard
 * (athletes, schools and karate events), the fifteen schools, and the
 * deterministic athlete generator with the four yearly batches that make up
 * the `athletes` list.
 */
module MockData {
  import opened Wrappers
  import opened Text

  /** An athlete of the ranking. Every number of the source holds an integer here. */
  datatype Athlete = Athlete(
    id: int,
    nombres: string,
    apellidos: string,
    edad: int,
    escuela: string,
    cinturon: string,
    ranking: int,
    cedula: string,
    oro: int,
    plata: int,
    bronce: int,
    logoUrl: Option<string>,
    registrationDate: string)

  /** A school as the selectors list it: a slug value, a display label and perhaps a logo. */
  datatype School = School(value: string, displayLabel: string, logoUrl: Option<string>)

  datatype EventType = Competencia | Seminario | Exhibicion
  datatype EventStatus = Programado | EnCurso | Finalizado | Cancelado

  /** A karate event; the date is a timestamp in milliseconds. */
  datatype KarateEvent = KarateEvent(
    id: string,
    name: string,
    description: string,
    date: int,
    location: string,
    eventType: EventType,
    status: EventStatus)

  /** The wire names of the enumerations, as the forms and filters use them. */
  function EventTypeName(t: EventType): string {
    match t
    case Competencia => "competencia"
    case Seminario => "seminario"
    case Exhibicion => "exhibicion"
  }

  function EventStatusName(s: EventStatus): string {
    match s
    case Programado => "programado"
    case EnCurso => "en-curso"
    case Finalizado => "finalizado"
    case Cancelado => "cancelado"
  }

  /** Reading a wire name back; anything else is not a member of the enumeration. */
  function ParseEventType(s: string): (r: Option<EventType>)
    ensures r.Some? ==> EventTypeName(r.value) == s
    ensures forall t :: EventTypeName(t) == s ==> r == Some(t)
  {
    if s == "competencia" then Some(Competencia)
    else if s == "seminario" then Some(Seminario)
    else if s == "exhibicion" then Some(Exhibicion)
    else None
  }

  function ParseEventStatus(s: string): (r: Option<EventStatus>)
    ensures r.Some? ==> EventStatusName(r.value) == s
    ensures forall t :: EventStatusName(t) == s ==> r == Some(t)
  {
    if s == "programado" then Some(Programado)
    else if s == "en-curso" then Some(EnCurso)
    else if s == "finalizado" then Some(Finalizado)
    else if s == "cancelado" then Some(Cancelado)
    else None
  }

  const Schools: seq<School> := [
    School("antonio-diaz-dojo", "Antonio Díaz Dojo", Some("https://storage.googleapis.com/proudcity/antoniokenpo/uploads/2020/07/antonio-diaz-logo.png")),
    School("shito-ryu-karate", "Shito-Ryu Karate", Some("https://www.shitokai.com/images/logo_ishimi_shitoryu_karatedo.jpg")),
    School("dojo-okinawa", "Dojo Okinawa", Some("https://dojookinawa.com/wp-content/uploads/2020/03/logo-okinawa-min.png")),
    School("bushido-vzla", "Bushido Vzla", Some("https://bushidovzla.files.wordpress.com/2016/09/cropped-bushido-vzla-logo-300.png")),
    School("shotokan-caracas", "Shotokan Caracas", Some("https://www.oskivenezuela.com/wp-content/uploads/2016/02/logo_oskil.png")),
    School("gensei-ryu-miranda", "Gensei-Ryu Miranda", Some("https://www.genseiryu.com.ve/images/logo.png")),
    School("wado-ryu-valencia", "Wado-Ryu Valencia", None),
    School("kyokushin-maracay", "Kyokushin Maracay", Some("https://www.ikakvenezuela.com/images/logo-iko-kyokushinkaikan-venezuela.png")),
    School("shorin-ryu-barquisimeto", "Shorin-Ryu Barquisimeto", Some("https://www.kobayashikaratedo.com/images/logos/logo-kobayashi-ryu-kyudokan-de-venezuela.png")),
    School("goju-ryu-merida", "Goju-Ryu Mérida", Some("https://gojuryu.org.ve/wp-content/uploads/2021/08/LOGO-OGKK-DE-VENEZUELA-version-final-transparente-296x300.png")),
    School("isshin-ryu-san-cristobal", "Isshin-Ryu San Cristóbal", Some("https://i.pinimg.com/736x/8f/9a/c6/8f9ac653856b68260b94427500d4586d.jpg")),
    School("kenpo-karate-zulia", "Kenpo Karate Zulia", Some("https://static.wixstatic.com/media/2513f5_0710b656336a4329b350711939cb4594~mv2.png/v1/fill/w_260,h_260,al_c,q_85,usm_0.66_1.00_0.01,enc_auto/Original.png")),
    School("ryuei-ryu-anzoategui", "Ryuei-Ryu Anzoátegui", Some("https://www.ryueiryu.com/en/common/images/h_logo.gif")),
    School("shudokan-bolivar", "Shudokan Bolívar", Some("https://shudokan.com.ve/wp-content/uploads/2020/09/logo-shudokan-3.png")),
    School("yoshukai-sucre", "Yoshukai Sucre", Some("https://yoshukai.org/wp-content/uploads/2019/11/YK-Logo-Web-Transparent.png"))
  ]

  const FirstNames: seq<string> := [
    "Pedro", "Ana", "Carlos", "Valentina", "Luis", "Mariana", "Diego", "Camila", "Andrés", "Sofía",
    "Juan", "Gabriela", "Elena", "John", "Daniel", "Lucía", "Mateo", "Isabella", "Javier", "Valeria",
    "Ricardo", "Paula", "Miguel", "Daniela", "Alejandro"
  ]

  const LastNames: seq<string> := [
    "Salas", "González", "Hernández", "Romero", "Martínez", "Pinto", "Suárez", "López", "García", "Méndez",
    "Ramírez", "Rojas", "Williams", "Smith", "Díaz", "Moreno", "Castillo", "Peña", "Acosta", "Gil",
    "Soto", "Rivas", "Alvarez", "Torres", "Mendoza"
  ]

  const Belts: seq<string> := ["Blanco", "Amarillo", "Naranja", "Verde", "Azul", "Púrpura", "Marrón", "Negro"]

  /** JavaScript's `a % b` for a positive divisor: the remainder takes the sign of `a`. */
  function JsRem(a: int, b: int): (r: int)
    requires b > 0
    ensures a >= 0 ==> r == a % b
    ensures a < 0 ==> r == -((-a) % b)
    ensures -b < r < b
  {
    if a >= 0 then a % b else -((-a) % b)
  }

  /** The gold medal count of the i-th generated athlete, in closed form. */
  function OroFor(i: int): (oro: int)
    ensures oro >= 0
  {
    if i == 1 then 10
    else if i == 2 then 8
    else if i == 3 then 6
    else if 4 <= i <= 9 then 10 - i
    else 0
  }

  /** The ranking points of the i-th generated athlete: 1500 - 70i + 5i. */
  function RankingFor(i: int): int {
    1500 - i * 70 + i * 5
  }

  /** The cédula of the i-th athlete: the decimal of 20 + i % 10 followed by that of 100000 + i. */
  function CedulaFor(i: nat): string {
    NatToString(20 + i % 10) + NatToString(100000 + i)
  }

  /** `${year}-${i % 12 + 1}-${i % 28 + 1}T10:00:00Z` (month and day are not zero-padded). */
  function RegistrationDateFor(year: int, i: nat): string {
    IntToString(year) + "-" + NatToString(i % 12 + 1) + "-" + NatToString(i % 28 + 1) + "T10:00:00Z"
  }

  /** The school of the i-th round: the rounds cycle through the school list. */
  function SchoolFor(i: nat): School {
    Schools[i % |Schools|]
  }

  /** The record the generator builds in its i-th round (i counts from 1). */
  function AthleteAt(year: int, i: nat): Athlete {
    var school := SchoolFor(i);
    Athlete(
      id := year * 100 + i,
      nombres := FirstNames[i % |FirstNames|],
      apellidos := LastNames[i % |LastNames|],
      edad := 10 + i % 15,
      escuela := school.displayLabel,
      cinturon := Belts[i % |Belts|],
      ranking := RankingFor(i),
      cedula := CedulaFor(i),
      oro := OroFor(i),
      plata := JsRem(15 - i, 5),
      bronce := JsRem(15 - i, 4),
      logoUrl := school.logoUrl,
      registrationDate := RegistrationDateFor(year, i))
  }

  /** The athletes generated for one year, in generation order. */
  function Batch(year: int, count: nat): (b: seq<Athlete>)
    ensures |b| == count
    ensures forall k :: 0 <= k < count ==> b[k] == AthleteAt(year, k + 1)
  {
    seq(count, k requires 0 <= k < count => AthleteAt(year, k + 1))
  }

  lemma BatchSnoc(year: int, n: nat)
    ensures Batch(year, n) + [AthleteAt(year, n + 1)] == Batch(year, n + 1)
  {
    var b, c := Batch(year, n) + [AthleteAt(year, n + 1)], Batch(year, n + 1);
    forall k | 0 <= k < n + 1 ensures b[k] == c[k] {
      if k < n {
        assert b[k] == Batch(year, n)[k];
      }
    }
  }

  /**
   * One round of `generateAthletes`: the gold count goes through the
   * source's chain of reassignments, the other fields are computed directly.
   */
  method MakeAthlete(year: int, i: nat) returns (athlete: Athlete)
    requires i >= 1
    ensures athlete == AthleteAt(year, i)
  {
    var school := SchoolFor(i);
    var rankingPoints := 1500 - (i * 70) + (i * 5);
    var oro := 0;
    if i <= 10 {
      oro := if 10 - i > 0 then 10 - i else 0;
    }
    if i == 1 {
      oro := 10;
    }
    if i == 2 {
      oro := 8;
    }
    if i == 3 {
      oro := 6;
    }
    var plata := JsRem(15 - i, 5);
    var bronce := JsRem(15 - i, 4);
    athlete := Athlete(
      year * 100 + i,
      FirstNames[i % |FirstNames|],
      LastNames[i % |LastNames|],
      10 + (i % 15),
      school.displayLabel,
      Belts[i % |Belts|],
      rankingPoints,
      CedulaFor(i),
      oro, plata, bronce,
      school.logoUrl,
      RegistrationDateFor(year, i));
  }

  /** `generateAthletes(year, count)`: a counted loop i = 1..count pushing one record per round. */
  method GenerateAthletes(year: int, count: int) returns (generated: seq<Athlete>)
    ensures count >= 0 ==> generated == Batch(year, count)
    ensures count < 0 ==> generated == []
  {
    generated := [];
    var i := 1;
    while i <= count
      invariant 1 <= i <= if count >= 0 then count + 1 else 1
      invariant generated == Batch(year, i - 1)
    {
      var athlete := MakeAthlete(year, i);
      BatchSnoc(year, i - 1);
      generated := generated + [athlete];
      i := i + 1;
    }
  }

  /** The exported `athletes`: the 2025 batch of 50, then 2024, 2023 and 2022 with 25 each. */
  function Athletes(): (r: seq<Athlete>)
    ensures |r| == 125
  {
    Batch(2025, 50) + Batch(2024, 25) + Batch(2023, 25) + Batch(2022, 25)
  }

  /** The calling side of the generator produces exactly the `athletes` list. */
  method BuildAthletes() returns (r: seq<Athlete>)
    ensures r == Athletes()
  {
    var a2025 := GenerateAthletes(2025, 50);
    var a2024 := GenerateAthletes(2024, 25);
    var a2023 := GenerateAthletes(2023, 25);
    var a2022 := GenerateAthletes(2022, 25);
    r := a2025 + a2024 + a2023 + a2022;
  }

  /** The year and round an index of `athletes` comes from. */
  function YearOfIndex(k: int): int {
    if k < 50 then 2025 else if k < 75 then 2024 else if k < 100 then 2023 else 2022
  }

  function RoundOfIndex(k: int): int {
    if k < 50 then k + 1 else if k < 75 then k - 49 else if k < 100 then k - 74 else k - 99
  }

  lemma AthletesAt(k: int)
    requires 0 <= k < 125
    ensures 1 <= RoundOfIndex(k) <= 50
    ensures Athletes()[k] == AthleteAt(YearOfIndex(k), RoundOfIndex(k))
  {
    var b1, b2, b3, b4 := Batch(2025, 50), Batch(2024, 25), Batch(2023, 25), Batch(2022, 25);
    assert Athletes() == b1 + b2 + b3 + b4;
    if k < 50 {
      assert Athletes()[k] == b1[k];
    } else if k < 75 {
      assert Athletes()[k] == b2[k - 50];
    } else if k < 100 {
      assert Athletes()[k] == b3[k - 75];
    } else {
      assert Athletes()[k] == b4[k - 100];
    }
  }

  /** The id of the athlete at index `k`: its year times 100 plus its round. */
  lemma AthleteIdAt(k: int)
    requires 0 <= k < 125
    ensures 1 <= RoundOfIndex(k) <= 50
    ensures Athletes()[k].id == YearOfIndex(k) * 100 + RoundOfIndex(k)
  {
    AthletesAt(k);
  }

  /** Every athlete of the data set has its own id: year and round are recovered from year * 100 + round. */
  lemma AthleteIdsUnique(j: int, k: int)
    requires 0 <= j < k < 125
    ensures Athletes()[j].id != Athletes()[k].id
  {
    AthleteIdAt(j);
    AthleteIdAt(k);
    var yj, yk, ij, ik := YearOfIndex(j), YearOfIndex(k), RoundOfIndex(j), RoundOfIndex(k);
    if yj == yk {
      assert ij < ik;
    } else {
      assert yj > yk;
      assert yj * 100 + ij > yk * 100 + ik;
    }
  }

  /** Within one batch the ids grow with the round. */
  lemma BatchIdsIncreasing(year: int, count: nat, j: int, k: int)
    requires 0 <= j < k < count
    ensures Batch(year, count)[j].id < Batch(year, count)[k].id
  {
  }

  /** The ranking formula is 1500 - 65i: strictly decreasing, positive up to round 23 and negative from round 24. */
  lemma RankingShape(i: int, j: int)
    ensures RankingFor(i) == 1500 - 65 * i
    ensures i < j ==> RankingFor(i) > RankingFor(j)
    ensures RankingFor(i) < 0 <==> i >= 24
  {
  }

  /** The 2025 batch (rounds 1..50) therefore contains athletes with negative points. */
  lemma NegativeRankingInData()
    ensures Athletes()[23].ranking == -60
    ensures Athletes()[49].ranking == -1750
  {
    AthletesAt(23);
    AthletesAt(49);
  }

  /** The gold counts: 10, 8, 6 for the first three rounds, 10 - i up to round 9, none after. */
  lemma GoldCounts(i: int)
    requires i >= 1
    ensures i <= 3 ==> OroFor(i) == [10, 8, 6][i - 1]
    ensures 4 <= i <= 9 ==> OroFor(i) == 10 - i
    ensures i >= 10 ==> OroFor(i) == 0
    ensures 1 <= i ==> OroFor(i) <= 10
  {
  }

  /** Truncating remainders make silver and bronze negative after round 15 unless 15 - i divides evenly. */
  lemma MedalRemainders(i: int)
    requires i >= 1
    ensures AthleteAt(2025, i).plata < 0 <==> i > 15 && (i - 15) % 5 != 0
    ensures AthleteAt(2025, i).bronce < 0 <==> i > 15 && (i - 15) % 4 != 0
    ensures i <= 15 ==> 0 <= AthleteAt(2025, i).plata < 5 && 0 <= AthleteAt(2025, i).bronce < 4
  {
  }

  lemma Round16Medals()
    ensures AthleteAt(2025, 16).plata == -1
    ensures AthleteAt(2025, 16).bronce == -1
  {
  }

  /** Ages lie between 10 and 24; the school and belt follow the round. */
  lemma AgeSchoolBelt(year: int, i: nat)
    ensures 10 <= AthleteAt(year, i).edad <= 24
    ensures AthleteAt(year, i).escuela == Schools[i % 15].displayLabel
    ensures AthleteAt(year, i).cinturon == Belts[i % 8]
  {
  }

  /** A generated cédula is all digits, and 8 characters long for every round below 900000. */
  lemma {:induction false} CedulaShape(i: nat)
    requires 1 <= i < 900000
    ensures AllDigits(CedulaFor(i))
    ensures |CedulaFor(i)| == 8
  {
    NatToStringLength(20 + i % 10);
    NatToStringLength(100000 + i);
    DigitCountTwo(20 + i % 10);
    DigitCountSix(100000 + i);
  }
}
