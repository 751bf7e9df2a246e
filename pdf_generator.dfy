/**
 * The content of a school's PDF report: a title with the school's label, a
 * dated subtitle, a five-column table of the school's athletes ordered by
 * points, and a "Página i de n" footer on every page. Fonts, colours and
 * the layout of the table are the PDF library's and are not modelled; the
 * number of pages the table takes is an input.
 */
module PdfGenerator {
  import opened Text
  import opened Sorting
  import opened MockData

  datatype Cell = NumCell(n: int) | TextCell(s: string)

  datatype Report = Report(title: string, subtitle: string, head: seq<string>, body: seq<seq<Cell>>)

  const Head: seq<string> := ["Ranking", "Nombre Completo", "Edad", "Cinturón", "Puntos"]

  /** The report orders by points only, largest first; there is no medal tie-break. */
  function PointsKey(a: Athlete): seq<int> {
    [a.ranking]
  }

  /** The table row of the athlete in position `pos`. */
  function Row(pos: int, a: Athlete): (r: seq<Cell>)
    ensures |r| == |Head|
  {
    [NumCell(pos), TextCell(a.nombres + " " + a.apellidos), NumCell(a.edad), TextCell(a.cinturon), NumCell(a.ranking)]
  }

  /** The body: sort a copy by points, then number the rows 1..n. */
  function ReportBody(athletes: seq<Athlete>): (body: seq<seq<Cell>>)
    ensures |body| == |athletes|
  {
    var sorted := SortDesc(athletes, PointsKey);
    seq(|sorted|, k requires 0 <= k < |sorted| => Row(k + 1, sorted[k]))
  }

  /** `k` zeros. */
  function Zeros(k: nat): string {
    seq(k, i => '0')
  }

  lemma ZerosCons(k: nat)
    ensures "0" + Zeros(k) == Zeros(k + 1)
  {
  }

  /**
   * A number written with at least `width` digits: its own digits, preceded
   * by as many zeros as it takes to reach the width.
   */
  function Pad(n: nat, width: nat): (s: string)
    ensures var d := NatToString(n);
      |s| == (if |d| >= width then |d| else width) && s == Zeros(|s| - |d|) + d
    ensures AllDigits(s)
    decreases width
  {
    var digits := NatToString(n);
    if |digits| >= width then
      assert digits == Zeros(0) + digits;
      digits
    else
      ZerosCons(width - 1 - |digits|);
      "0" + Pad(n, width - 1)
  }

  /** Leading zeros do not change the value of a string of digits. */
  lemma {:induction false} LeadingZero(s: string)
    requires AllDigits(s)
    ensures AllDigits("0" + s) && DigitsValue("0" + s) == DigitsValue(s)
  {
    var z := "0" + s;
    if s != [] {
      assert z[..|z| - 1] == "0" + s[..|s| - 1];
      assert z[|z| - 1] == s[|s| - 1];
      LeadingZero(s[..|s| - 1]);
    }
  }

  /** The padded number reads back as the number. */
  lemma {:induction false} PadValue(n: nat, width: nat)
    ensures DigitsValue(Pad(n, width)) == n
    decreases width
  {
    if |NatToString(n)| >= width {
      assert Pad(n, width) == NatToString(n);
      NatToStringRoundTrip(n);
    } else {
      var rest := Pad(n, width - 1);
      assert Pad(n, width) == "0" + rest;
      PadValue(n, width - 1);
      LeadingZero(rest);
    }
  }

  /** A number below `10^width` takes exactly `width` characters once padded, and reads back. */
  lemma PadField(n: nat, width: nat)
    requires width > 0 && n < Power10(width)
    ensures |Pad(n, width)| == width && AllDigits(Pad(n, width)) && DigitsValue(Pad(n, width)) == n
  {
    DigitsBelowPower(n, width);
    PadValue(n, width);
  }

  function Power10(k: nat): (r: nat)
    ensures r > 0
  {
    if k == 0 then 1 else 10 * Power10(k - 1)
  }

  lemma {:induction false} DigitsBelowPower(n: nat, k: nat)
    requires k > 0 && n < Power10(k)
    ensures |NatToString(n)| <= k
  {
    if n >= 10 {
      assert k > 1;
      DigitsBelowPower(n / 10, k - 1);
    }
  }

  /**
   * `format(date, 'dd/MM/yyyy')`: for a day and month below 100 and a year
   * below 10000 it is ten characters, two slashes at 2 and 5, and the three
   * numbers read back from the fields between them.
   */
  function FormatDate(day: nat, month: nat, year: nat): (r: string)
    ensures day < 100 && month < 100 && year < 10000 ==>
      |r| == 10 && r[2] == '/' && r[5] == '/' &&
      AllDigits(r[..2]) && AllDigits(r[3..5]) && AllDigits(r[6..]) &&
      DigitsValue(r[..2]) == day && DigitsValue(r[3..5]) == month && DigitsValue(r[6..]) == year
  {
    var r := Pad(day, 2) + "/" + Pad(month, 2) + "/" + Pad(year, 4);
    if day < 100 && month < 100 && year < 10000 then
      Power10Values();
      PadField(day, 2);
      PadField(month, 2);
      PadField(year, 4);
      Fields(Pad(day, 2), '/', Pad(month, 2), Pad(year, 4));
      r
    else
      r
  }

  /** The three fields of a stamp `a s b s c` with two-character `a` and `b`. */
  lemma Fields(a: string, sep: char, b: string, c: string)
    requires |a| == 2 && |b| == 2
    ensures var r := a + [sep] + b + [sep] + c;
      |r| == 6 + |c| && r[2] == sep && r[5] == sep && r[..2] == a && r[3..5] == b && r[6..] == c
  {
  }

  lemma Power10Values()
    ensures Power10(2) == 100 && Power10(4) == 10000
  {
    assert Power10(1) == 10;
    assert Power10(3) == 1000;
  }

  /** Two dates in range with the same stamp are the same date. */
  lemma FormatDateInjective(d1: nat, m1: nat, y1: nat, d2: nat, m2: nat, y2: nat)
    requires d1 < 100 && m1 < 100 && y1 < 10000 && d2 < 100 && m2 < 100 && y2 < 10000
    requires FormatDate(d1, m1, y1) == FormatDate(d2, m2, y2)
    ensures d1 == d2 && m1 == m2 && y1 == y2
  {
  }

  /** `generateSchoolReport`, without the drawing: the title, the dated subtitle, the header and the rows. */
  function SchoolReport(school: School, athletes: seq<Athlete>, day: nat, month: nat, year: nat): (r: Report)
    ensures r.title == school.displayLabel && r.head == Head
    ensures r.subtitle == "Reporte de Atletas - " + FormatDate(day, month, year)
    ensures r.body == ReportBody(athletes)
  {
    Report(school.displayLabel, "Reporte de Atletas - " + FormatDate(day, month, year), Head, ReportBody(athletes))
  }

  /** Ordered by the one-element key means the points never increase. */
  lemma PointsNonIncreasing(sorted: seq<Athlete>)
    requires SortedDesc(sorted, PointsKey)
    ensures forall i, j :: 0 <= i < j < |sorted| ==> sorted[i].ranking >= sorted[j].ranking
  {
    SortedDescOneKey(sorted, PointsKey, (a: Athlete) => a.ranking);
  }

  /** Row k of the body is position k + 1, holding the athlete in that place of the by-points order. */
  lemma ReportBodyRows(athletes: seq<Athlete>)
    ensures forall k :: 0 <= k < |athletes| ==>
      ReportBody(athletes)[k] == Row(k + 1, SortDesc(athletes, PointsKey)[k])
    ensures forall k :: 0 <= k < |athletes| ==> ReportBody(athletes)[k][0] == NumCell(k + 1)
  {
  }

  /** The rows hold every athlete of the school exactly once. */
  lemma ReportBodyPermutation(athletes: seq<Athlete>)
    ensures multiset(SortDesc(athletes, PointsKey)) == multiset(athletes)
  {
    SortDescMultiset(athletes, PointsKey);
  }

  /** The points column never increases down the table. */
  lemma ReportBodyPoints(athletes: seq<Athlete>)
    ensures forall i, j :: 0 <= i < j < |athletes| ==>
      ReportBody(athletes)[i][4].n >= ReportBody(athletes)[j][4].n
  {
    SortDescSorted(athletes, PointsKey);
    PointsNonIncreasing(SortDesc(athletes, PointsKey));
  }

  /** An empty school yields the header and no rows. */
  lemma EmptyReport(school: School, day: nat, month: nat, year: nat)
    ensures SchoolReport(school, [], day, month, year).body == []
    ensures |SchoolReport(school, [], day, month, year).head| == 5
  {
  }

  /** Athletes with equal points keep their order from the input list. */
  lemma ReportTiesKeepOrder(athletes: seq<Athlete>, points: int)
    ensures KeyClass(SortDesc(athletes, PointsKey), PointsKey, [points]) == KeyClass(athletes, PointsKey, [points])
  {
    SortDescStable(athletes, PointsKey, [points]);
  }

  /** The footer text of page `i` of `pageCount`. */
  function FooterLabel(i: int, pageCount: int): string {
    "Página " + IntToString(i) + " de " + IntToString(pageCount)
  }

  /**
   * The footer loop: for i = 1..pageCount it selects page i and writes its
   * label. The result lists the (page, text) pairs written, in order.
   */
  method StampFooters(pageCount: int) returns (stamps: seq<(int, string)>)
    ensures |stamps| == if pageCount > 0 then pageCount else 0
    ensures forall k :: 0 <= k < |stamps| ==> stamps[k] == (k + 1, FooterLabel(k + 1, pageCount))
  {
    stamps := [];
    var i := 1;
    while i <= pageCount
      invariant 1 <= i <= if pageCount > 0 then pageCount + 1 else 1
      invariant |stamps| == i - 1
      invariant forall k :: 0 <= k < |stamps| ==> stamps[k] == (k + 1, FooterLabel(k + 1, pageCount))
    {
      stamps := stamps + [(i, FooterLabel(i, pageCount))];
      i := i + 1;
    }
  }
}
