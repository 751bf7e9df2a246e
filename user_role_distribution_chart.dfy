/**
 * The user role distribution chart: each mock user takes the role
 * `[alumno, representante, master, admin][id % 4]` from its athlete's id,
 * and the chart shows one bar per role, in that order, counting the users.
 */
module UserRoleDistributionChart {
  import opened Seqs
  import opened MockData
  import opened UserEditForm

  const RoleOrder := [Alumno, Representante, Master, Admin]

  /** The chart's own labels (the administrator is just "Admin" here). */
  function ChartLabel(r: Role): string {
    match r
    case Admin => "Admin"
    case Master => "Master"
    case Alumno => "Alumno"
    case Representante => "Representante"
  }

  const RoleColors := ["hsl(var(--chart-1))", "hsl(var(--chart-2))", "hsl(var(--chart-3))", "hsl(var(--chart-4))"]

  datatype RoleBar = RoleBar(roleLabel: string, count: nat, fill: string)

  /** The role the chart gives an athlete's user. */
  function RoleOf(a: Athlete): Role {
    MockRole(a.id)
  }

  function Total(data: seq<RoleBar>): nat {
    if data == [] then 0 else data[0].count + Total(data[1..])
  }

  /** The `useMemo` body: four counters at zero, one pass over the users, then the bars in role order. */
  method ChartData(athletes: seq<Athlete>) returns (data: seq<RoleBar>)
    ensures |data| == |RoleOrder|
    ensures forall k :: 0 <= k < |data| ==> data[k] == RoleBar(ChartLabel(RoleOrder[k]), CountKey(athletes, RoleOf, RoleOrder[k]), RoleColors[k])
    ensures Total(data) == |athletes|
  {
    var roleCounts: map<Role, nat> := map[Admin := 0, Master := 0, Alumno := 0, Representante := 0];
    forall r: Role ensures r in roleCounts && roleCounts[r] == 0 {
      EveryRoleListed(r);
    }
    var i := 0;
    while i < |athletes|
      invariant 0 <= i <= |athletes|
      invariant forall r :: r in roleCounts && roleCounts[r] == CountKey(athletes[..i], RoleOf, r)
    {
      var role := MockRole(athletes[i].id);
      if role in roleCounts {
        roleCounts := roleCounts[role := roleCounts[role] + 1];
      }
      forall r
        ensures roleCounts[r] == CountKey(athletes[..i + 1], RoleOf, r)
      {
        assert athletes[..i + 1] == athletes[..i] + [athletes[i]];
        CountKeySnoc(athletes[..i], athletes[i], RoleOf, r);
      }
      i := i + 1;
    }
    assert athletes[..i] == athletes;
    data := seq(|RoleOrder|, k requires 0 <= k < |RoleOrder| => RoleBar(ChartLabel(RoleOrder[k]), roleCounts[RoleOrder[k]], RoleColors[k]));
    TotalOfChart(athletes, data);
    EveryUserCounted(athletes);
  }

  /** The chart order lists every role. */
  lemma EveryRoleListed(r: Role)
    ensures r in RoleOrder
  {
    match r
    case Alumno => assert RoleOrder[0] == r;
    case Representante => assert RoleOrder[1] == r;
    case Master => assert RoleOrder[2] == r;
    case Admin => assert RoleOrder[3] == r;
  }

  predicate Listed(a: Athlete) {
    RoleOf(a) in RoleOrder
  }

  lemma {:induction false} TotalIsSum(data: seq<RoleBar>, athletes: seq<Athlete>, k: nat)
    requires k <= |data| == |RoleOrder|
    requires forall j :: 0 <= j < |data| ==> data[j].count == CountKey(athletes, RoleOf, RoleOrder[j])
    ensures Total(data[k..]) == SumCounts(athletes, RoleOf, RoleOrder[k..])
    decreases |data| - k
  {
    if k < |data| {
      TotalIsSum(data, athletes, k + 1);
      assert data[k..][1..] == data[k + 1..];
      assert RoleOrder[k..][1..] == RoleOrder[k + 1..];
    }
  }

  /** The bars' total is the sum of the four roles' counts. */
  lemma TotalOfChart(athletes: seq<Athlete>, data: seq<RoleBar>)
    requires |data| == |RoleOrder|
    requires forall k :: 0 <= k < |data| ==> data[k] == RoleBar(ChartLabel(RoleOrder[k]), CountKey(athletes, RoleOf, RoleOrder[k]), RoleColors[k])
    ensures Total(data) == SumCounts(athletes, RoleOf, RoleOrder)
  {
    TotalIsSum(data, athletes, 0);
    assert data[0..] == data && RoleOrder[0..] == RoleOrder;
  }

  /** Every user has one of the four roles, so the four counts add up to the number of users. */
  lemma EveryUserCounted(athletes: seq<Athlete>)
    ensures SumCounts(athletes, RoleOf, RoleOrder) == |athletes|
  {
    forall i | 0 <= i < |athletes| ensures Listed(athletes[i]) == (RoleOf(athletes[i]) in RoleOrder) {
    }
    SumCountsIsCountIn(athletes, RoleOf, RoleOrder, Listed);
    forall i | 0 <= i < |athletes| ensures Listed(athletes[i]) {
      EveryRoleListed(RoleOf(athletes[i]));
    }
    CountEvery(athletes, Listed);
  }

  /** Consecutive ids cycle through the roles in chart order. */
  lemma RoleCycle(id: nat)
    ensures MockRole(id) == RoleOrder[id % 4]
    ensures MockRole(id + 4) == MockRole(id)
  {
  }
}
