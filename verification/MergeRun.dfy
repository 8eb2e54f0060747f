/**
 Running the hostname migration: one transaction that, plan by plan, gives the losers' child rows to
 the winner, deletes the losers and rewrites the winner. It either commits or leaves every table as
 it was. What it commits is described here in one step, without the plans' order: every child row
 goes to the heir of its provider.
 */
module MergeRun {

  import opened Wrappers
  import opened MergePlan

  // ---------------------------------------------------------------------------------------------
  // Tables, each a map from the primary key
  // ---------------------------------------------------------------------------------------------

  // A row of call_records, claims or outage_events: its provider, and its other columns.
  datatype Child = Child(provider: string, rest: string)

  // A row of premium_adjustments.
  datatype Adjustment = Adjustment(agent: string, provider: string, rest: string)

  datatype Tables = Tables(
    providers: map<string, ProviderRow>,
    calls: map<string, Child>,
    claims: map<string, Child>,
    adjustments: map<string, Adjustment>,
    outages: map<string, Child>)

  // UNIQUE(base_url)
  predicate UniqueUrls(providers: map<string, ProviderRow>) {
    forall a, b :: a in providers && b in providers && providers[a].baseUrl == providers[b].baseUrl ==> a == b
  }

  predicate SameKey(a: Adjustment, b: Adjustment) {
    a.agent == b.agent && a.provider == b.provider
  }

  // UNIQUE(agent_id, provider_id)
  predicate UniqueAdjustments(adjustments: map<string, Adjustment>) {
    forall a, b :: a in adjustments && b in adjustments && SameKey(adjustments[a], adjustments[b]) ==> a == b
  }

  // REFERENCES providers(id)
  ghost predicate Refer(children: map<string, Child>, providers: map<string, ProviderRow>) {
    forall k :: k in children ==> children[k].provider in providers
  }

  ghost predicate AdjustmentsRefer(adjustments: map<string, Adjustment>, providers: map<string, ProviderRow>) {
    forall k :: k in adjustments ==> adjustments[k].provider in providers
  }

  ghost predicate References(t: Tables) {
    && Refer(t.calls, t.providers) && Refer(t.claims, t.providers) && Refer(t.outages, t.providers)
    && AdjustmentsRefer(t.adjustments, t.providers)
  }

  ghost predicate Consistent(t: Tables) {
    && (forall id :: id in t.providers ==> t.providers[id].id == id)
    && UniqueUrls(t.providers) && UniqueAdjustments(t.adjustments) && References(t)
  }

  // The rows that SELECT ... FROM providers lists, in some order.
  ghost predicate IsListing(providers: map<string, ProviderRow>, rows: seq<ProviderRow>) {
    && (forall r :: r in rows <==> r.id in providers && providers[r.id] == r)
    && (forall i, j :: 0 <= i < j < |rows| ==> rows[i] != rows[j])
  }

  // ---------------------------------------------------------------------------------------------
  // Statements
  // ---------------------------------------------------------------------------------------------

  // UPDATE ... SET provider_id = winner WHERE provider_id = ANY(losers)
  function Reparent(children: map<string, Child>, losers: set<string>, winner: string): map<string, Child> {
    map k | k in children :: if children[k].provider in losers then children[k].(provider := winner) else children[k]
  }

  predicate Holds(adjustments: map<string, Adjustment>, agent: string, provider: string) {
    exists k :: k in adjustments && adjustments[k].agent == agent && adjustments[k].provider == provider
  }

  // The rows that the UPDATE of premium_adjustments selects; NOT EXISTS looks at the table as it was
  // before the statement.
  function Movable(adjustments: map<string, Adjustment>, losers: set<string>, winner: string): set<string> {
    set k | k in adjustments && adjustments[k].provider in losers && !Holds(adjustments, adjustments[k].agent, winner)
  }

  function MoveAdjustments(adjustments: map<string, Adjustment>, losers: set<string>, winner: string): map<string,
                           Adjustment> {
    map k | k in adjustments ::
      if k in Movable(adjustments, losers, winner) then adjustments[k].(provider := winner) else adjustments[k]
  }

  function HeldBy(adjustments: map<string, Adjustment>, losers: set<string>): set<string> {
    set k | k in adjustments && adjustments[k].provider in losers
  }

  // ---------------------------------------------------------------------------------------------
  // The whole merge in one step
  // ---------------------------------------------------------------------------------------------

  // Which winner each loser gives way to.
  ghost function Heirs(plans: seq<GroupPlan>): map<string, string> {
    if plans == [] then map[]
    else
      var n := |plans| - 1;
      Heirs(plans[..n]) + map id | id in LoserIds(plans[n]) :: plans[n].winner.id
  }

  ghost function Heir(heirs: map<string, string>, id: string): string {
    if id in heirs then heirs[id] else id
  }

  ghost function Inherit(children: map<string, Child>, heirs: map<string, string>): map<string, Child> {
    map k | k in children :: children[k].(provider := Heir(heirs, children[k].provider))
  }

  // A loser's adjustment survives iff the winner has none for the same agent.
  ghost predicate Survives(adjustments: map<string, Adjustment>, heirs: map<string, string>, a: Adjustment) {
    a.provider in heirs ==> !Holds(adjustments, a.agent, heirs[a.provider])
  }

  ghost function InheritAdjustments(adjustments: map<string, Adjustment>, heirs: map<string, string>): map<string,
                                    Adjustment> {
    map k | k in adjustments && Survives(adjustments, heirs, adjustments[k]) ::
      adjustments[k].(provider := Heir(heirs, adjustments[k].provider))
  }

  ghost function Rewritten(row: ProviderRow, plans: seq<GroupPlan>): ProviderRow {
    if plans == [] then row
    else
      var n := |plans| - 1;
      var before := Rewritten(row, plans[..n]);
      if plans[n].winner.id == row.id
      then before.(baseUrl := plans[n].canonical, wallet := Coalesce(before.wallet, plans[n].walletToSet))
      else before
  }

  ghost function RewriteProviders(providers: map<string, ProviderRow>, plans: seq<GroupPlan>): map<string,
                                  ProviderRow> {
    map id | id in providers && id !in Heirs(plans) :: Rewritten(providers[id], plans)
  }

  ghost function Merged(t: Tables, plans: seq<GroupPlan>): Tables {
    var heirs := Heirs(plans);
    Tables(RewriteProviders(t.providers, plans), Inherit(t.calls, heirs), Inherit(t.claims, heirs),
           InheritAdjustments(t.adjustments, heirs), Inherit(t.outages, heirs))
  }

  ghost predicate Clash(adjustments: map<string, Adjustment>, heirs: map<string, string>, a: Adjustment,
                        b: Adjustment) {
    && a.agent == b.agent && a.provider in heirs && b.provider in heirs && heirs[a.provider] == heirs[b.provider]
    && !Holds(adjustments, a.agent, heirs[a.provider])
  }

  // Two adjustments of one agent go to the same winner, which has none for that agent.
  ghost predicate Conflict(adjustments: map<string, Adjustment>, heirs: map<string, string>) {
    exists a, b :: a in adjustments && b in adjustments && a != b
          && Clash(adjustments, heirs, adjustments[a], adjustments[b])
  }

  // ---------------------------------------------------------------------------------------------
  // The plans of one run do not interfere
  // ---------------------------------------------------------------------------------------------

  ghost predicate Separate(p: GroupPlan, q: GroupPlan) {
    && p.winner.id != q.winner.id && p.winner.id !in LoserIds(q)
    && q.winner.id !in LoserIds(p) && LoserIds(p) !! LoserIds(q)
    && p.canonical != q.canonical
  }

  // plan touches no row that the plans before it touch.
  ghost predicate Apart(before: seq<GroupPlan>, plan: GroupPlan) {
    && plan.winner.id !in LoserIds(plan)
    && forall p :: p in before ==> Separate(p, plan)
  }

  lemma {:induction false} HeirsMeaning(plans: seq<GroupPlan>)
    ensures forall id ::
          id in Heirs(plans) ==> exists p :: p in plans && id in LoserIds(p) && Heirs(plans)[id] == p.winner.id
    ensures forall p :: p in plans ==> forall id :: id in LoserIds(p) ==> id in Heirs(plans)
  {
    if plans != [] {
      var n := |plans| - 1;
      HeirsMeaning(plans[..n]);
      assert plans == plans[..n] + [plans[n]];
      forall id | id in Heirs(plans)
        ensures exists p :: p in plans && id in LoserIds(p) && Heirs(plans)[id] == p.winner.id
      {
        if id in LoserIds(plans[n]) {
          assert plans[n] in plans;
        } else {
          assert id in Heirs(plans[..n]);
          var p :| p in plans[..n] && id in LoserIds(p) && Heirs(plans[..n])[id] == p.winner.id;
          assert p in plans;
        }
      }
    }
  }

  lemma HeirsApart(before: seq<GroupPlan>, plan: GroupPlan)
    requires Apart(before, plan)
    ensures var heirs := Heirs(before);
            && plan.winner.id !in heirs && heirs.Keys !! LoserIds(plan)
            && forall id :: id in heirs ==> heirs[id] != plan.winner.id && heirs[id] !in LoserIds(plan)
  {
    HeirsMeaning(before);
  }

  // The heirs after one more plan.
  ghost function Extend(heirs: map<string, string>, losers: set<string>, winner: string): map<string, string> {
    heirs + map id | id in losers :: winner
  }

  ghost predicate Fresh(heirs: map<string, string>, losers: set<string>, winner: string) {
    && winner !in heirs && winner !in losers && heirs.Keys !! losers
    && forall id :: id in heirs ==> heirs[id] != winner && heirs[id] !in losers
  }

  // ---------------------------------------------------------------------------------------------
  // Each statement takes one step of the merge
  // ---------------------------------------------------------------------------------------------

  lemma ReparentStep(children: map<string, Child>, heirs: map<string, string>, losers: set<string>, winner: string)
    requires Fresh(heirs, losers, winner)
    ensures Reparent(Inherit(children, heirs), losers, winner) == Inherit(children, Extend(heirs, losers, winner))
  {
  }

  lemma HoldsKept(adjustments: map<string, Adjustment>, heirs: map<string, string>, agent: string, provider: string)
    requires provider !in heirs && forall id :: id in heirs ==> heirs[id] != provider
    ensures Holds(InheritAdjustments(adjustments, heirs), agent, provider) <==> Holds(adjustments, agent, provider)
  {
    var now := InheritAdjustments(adjustments, heirs);
    if Holds(adjustments, agent, provider) {
      var k :| k in adjustments && adjustments[k].agent == agent && adjustments[k].provider == provider;
      assert k in now && now[k] == adjustments[k];
    }
    if Holds(now, agent, provider) {
      var k :| k in now && now[k].agent == agent && now[k].provider == provider;
      assert adjustments[k] == now[k];
    }
  }

  ghost predicate Rivals(adjustments: map<string, Adjustment>, losers: set<string>, winner: string, a: Adjustment,
                         b: Adjustment) {
    a.agent == b.agent && a.provider in losers && b.provider in losers && !Holds(adjustments, a.agent, winner)
  }

  // Two losers of one plan hold adjustments of an agent for which the winner has none.
  ghost predicate ClashIn(adjustments: map<string, Adjustment>, losers: set<string>, winner: string) {
    exists a, b :: a in adjustments && b in adjustments && a != b
          && Rivals(adjustments, losers, winner, adjustments[a], adjustments[b])
  }

  // Earlier plans leave the rows of the next plan's losers alone.
  lemma LoserRowsKept(adjustments: map<string, Adjustment>, heirs: map<string, string>, losers: set<string>,
                      winner: string)
    requires Fresh(heirs, losers, winner)
    ensures var now := InheritAdjustments(adjustments, heirs);
            && (forall k :: k in now && now[k].provider in losers ==> now[k] == adjustments[k])
            && (forall k ::
                  k in adjustments && adjustments[k].provider in losers ==> k in now && now[k] == adjustments[k])
            && HeldBy(now, losers) == HeldBy(adjustments, losers)
  {
  }

  // The UPDATE violates UNIQUE(agent_id, provider_id) exactly when two rivals meet.
  lemma UniqueAfterMove(now: map<string, Adjustment>, losers: set<string>, winner: string)
    requires UniqueAdjustments(now) && winner !in losers
    ensures UniqueAdjustments(MoveAdjustments(now, losers, winner)) <==> !ClashIn(now, losers, winner)
  {
    var moved := MoveAdjustments(now, losers, winner);
    if ClashIn(now, losers, winner) {
      var a, b :| a in now && b in now && a != b && Rivals(now, losers, winner, now[a], now[b]);
      assert a in Movable(now, losers, winner) && b in Movable(now, losers, winner);
      assert SameKey(moved[a], moved[b]);
    } else {
      forall a, b | a in moved && b in moved && SameKey(moved[a], moved[b])
        ensures a == b
      {
        var rivals, same := Rivals(now, losers, winner, now[a], now[b]), SameKey(now[a], now[b]);
      }
    }
  }

  lemma ClashKept(adjustments: map<string, Adjustment>, heirs: map<string, string>, losers: set<string>, winner: string)
    requires Fresh(heirs, losers, winner)
    ensures ClashIn(InheritAdjustments(adjustments, heirs), losers, winner) <==> ClashIn(adjustments, losers, winner)
  {
    var now := InheritAdjustments(adjustments, heirs);
    LoserRowsKept(adjustments, heirs, losers, winner);
    if ClashIn(now, losers, winner) {
      var a, b :| a in now && b in now && a != b && Rivals(now, losers, winner, now[a], now[b]);
      HoldsKept(adjustments, heirs, now[a].agent, winner);
      assert Rivals(adjustments, losers, winner, adjustments[a], adjustments[b]);
    }
    if ClashIn(adjustments, losers, winner) {
      var a, b :| a in adjustments && b in adjustments && a != b
            && Rivals(adjustments, losers, winner, adjustments[a], adjustments[b]);
      HoldsKept(adjustments, heirs, adjustments[a].agent, winner);
      assert Rivals(now, losers, winner, now[a], now[b]);
    }
  }

  function DeleteAdjustments(adjustments: map<string, Adjustment>, losers: set<string>): map<string, Adjustment> {
    map k | k in adjustments && adjustments[k].provider !in losers :: adjustments[k]
  }

  // The conflict-free move and the delete together are one step of the merge.
  lemma AdjustmentsStep(adjustments: map<string, Adjustment>, heirs: map<string, string>, losers: set<string>,
                        winner: string)
    requires Fresh(heirs, losers, winner)
    ensures DeleteAdjustments(MoveAdjustments(InheritAdjustments(adjustments, heirs), losers, winner), losers)
         == InheritAdjustments(adjustments, Extend(heirs, losers, winner))
  {
    var now := InheritAdjustments(adjustments, heirs);
    var next := Extend(heirs, losers, winner);
    var left := DeleteAdjustments(MoveAdjustments(now, losers, winner), losers);
    var right := InheritAdjustments(adjustments, next);
    LoserRowsKept(adjustments, heirs, losers, winner);
    forall k | k in adjustments
      ensures k in left <==> k in right
      ensures k in left ==> left[k] == right[k]
    {
      HoldsKept(adjustments, heirs, adjustments[k].agent, winner);
    }
    assert left.Keys == right.Keys;
  }

  lemma ClashStep(adjustments: map<string, Adjustment>, heirs: map<string, string>, losers: set<string>, winner: string,
                  a: Adjustment, b: Adjustment)
    requires Fresh(heirs, losers, winner)
    ensures Clash(adjustments, Extend(heirs, losers, winner), a, b)
       <==> Clash(adjustments, heirs, a, b) || Rivals(adjustments, losers, winner, a, b)
  {
  }

  lemma ConflictStep(adjustments: map<string, Adjustment>, heirs: map<string, string>, losers: set<string>,
                     winner: string)
    requires Fresh(heirs, losers, winner)
    ensures Conflict(adjustments, Extend(heirs, losers, winner))
       <==> Conflict(adjustments, heirs) || ClashIn(adjustments, losers, winner)
  {
    forall a, b | a in adjustments && b in adjustments
      ensures Clash(adjustments, Extend(heirs, losers, winner), adjustments[a], adjustments[b])
         <==> Clash(adjustments, heirs, adjustments[a], adjustments[b])
              || Rivals(adjustments, losers, winner, adjustments[a], adjustments[b])
    {
      ClashStep(adjustments, heirs, losers, winner, adjustments[a], adjustments[b]);
    }
  }

  lemma DeleteCount(adjustments: map<string, Adjustment>, losers: set<string>)
    ensures |DeleteAdjustments(adjustments, losers)| + |HeldBy(adjustments, losers)| == |adjustments|
  {
    var left, held := DeleteAdjustments(adjustments, losers), HeldBy(adjustments, losers);
    assert left.Keys + held == adjustments.Keys && left.Keys !! held;
    assert |left| == |left.Keys| && |adjustments| == |adjustments.Keys|;
  }

  // Row counts of the two statements on premium_adjustments.
  lemma AdjustmentCounts(now: map<string, Adjustment>, losers: set<string>, winner: string)
    requires winner !in losers
    ensures var moved := MoveAdjustments(now, losers, winner);
            && |Movable(now, losers, winner)| + |HeldBy(moved, losers)| == |HeldBy(now, losers)|
            && |DeleteAdjustments(moved, losers)| + |HeldBy(moved, losers)| == |now|
  {
    var moved := MoveAdjustments(now, losers, winner);
    var m, h := Movable(now, losers, winner), HeldBy(moved, losers);
    assert m + h == HeldBy(now, losers) && m !! h;
    DeleteCount(moved, losers);
    assert moved.Keys == now.Keys;
    assert |moved| == |moved.Keys| && |now| == |now.Keys|;
  }

  // ---------------------------------------------------------------------------------------------
  // Providers
  // ---------------------------------------------------------------------------------------------

  // The tables, and the listing of the providers that the plans were made from.
  ghost predicate Setting(canon: Canon, t: Tables, rows: seq<ProviderRow>) {
    Lawful(canon) && Consistent(t) && IsListing(t.providers, rows)
  }

  // The plan's winner and losers are exactly the stored rows of its hostname.
  ghost predicate WellPlanned(canon: Canon, providers: map<string, ProviderRow>, plan: GroupPlan) {
    && plan.winner.id in providers && providers[plan.winner.id] == plan.winner
    && canon(plan.winner.baseUrl) == Some(plan.canonical)
    && (forall id :: id in LoserIds(plan) <==>
          id in providers && canon(providers[id].baseUrl) == Some(plan.canonical) && id != plan.winner.id)
    && (plan.winner.wallet.Some? ==> plan.walletToSet == plan.winner.wallet)
  }

  lemma PlansAreWellPlanned(canon: Canon, t: Tables, rows: seq<ProviderRow>, plan: GroupPlan)
    requires Setting(canon, t, rows) && PlanFits(canon, rows, plan)
    ensures WellPlanned(canon, t.providers, plan)
  {
    PlanMembers(canon, rows, plan);
    forall id
      ensures id in LoserIds(plan) <==>
              id in t.providers && canon(t.providers[id].baseUrl) == Some(plan.canonical) && id != plan.winner.id
    {
      if id in LoserIds(plan) {
        var l :| l in plan.losers && l.id == id;
        assert l in rows;
      }
      if id in t.providers && canon(t.providers[id].baseUrl) == Some(plan.canonical) && id != plan.winner.id {
        assert t.providers[id] in rows;
        assert t.providers[id] in plan.losers;
      }
    }
  }

  // before and plan are the first plans of a run.
  ghost predicate NextPlan(canon: Canon, providers: map<string, ProviderRow>, before: seq<GroupPlan>, plan: GroupPlan) {
    WellPlanned(canon, providers, plan) && Apart(before, plan)
  }

  lemma WellPlannedApart(canon: Canon, providers: map<string, ProviderRow>, p: GroupPlan, q: GroupPlan)
    requires WellPlanned(canon, providers, p) && WellPlanned(canon, providers, q) && p.canonical != q.canonical
    ensures Separate(p, q)
  {
  }

  lemma PlanAt(canon: Canon, t: Tables, rows: seq<ProviderRow>, i: nat)
    requires Setting(canon, t, rows) && i < |Plans(canon, rows)|
    ensures WellPlanned(canon, t.providers, Plans(canon, rows)[i])
  {
    PlansMeaning(canon, rows);
    assert Plans(canon, rows)[i] in Plans(canon, rows);
    PlansAreWellPlanned(canon, t, rows, Plans(canon, rows)[i]);
  }

  lemma TwoPlansApart(canon: Canon, t: Tables, rows: seq<ProviderRow>, i: nat, j: nat)
    requires Setting(canon, t, rows) && j < i < |Plans(canon, rows)|
    ensures Separate(Plans(canon, rows)[j], Plans(canon, rows)[i])
  {
    PlanAt(canon, t, rows, i);
    PlanAt(canon, t, rows, j);
    PlansMeaning(canon, rows);
    WellPlannedApart(canon, t.providers, Plans(canon, rows)[j], Plans(canon, rows)[i]);
  }

  lemma PlansApart(canon: Canon, t: Tables, rows: seq<ProviderRow>, i: nat)
    requires Setting(canon, t, rows) && i < |Plans(canon, rows)|
    ensures NextPlan(canon, t.providers, Plans(canon, rows)[..i], Plans(canon, rows)[i])
  {
    var plans := Plans(canon, rows);
    PlanAt(canon, t, rows, i);
    forall p | p in plans[..i]
      ensures Separate(p, plans[i])
    {
      var j :| 0 <= j < i && p == plans[j];
      TwoPlansApart(canon, t, rows, i, j);
    }
  }

  lemma {:induction false} RewrittenMeaning(row: ProviderRow, plans: seq<GroupPlan>)
    ensures Rewritten(row, plans).id == row.id
    ensures (forall p :: p in plans ==> p.winner.id != row.id) ==> Rewritten(row, plans) == row
    ensures Rewritten(row, plans).baseUrl == row.baseUrl
         || exists p :: p in plans && p.winner.id == row.id && Rewritten(row, plans).baseUrl == p.canonical
  {
    if plans != [] {
      var n := |plans| - 1;
      RewrittenMeaning(row, plans[..n]);
      assert plans == plans[..n] + [plans[n]];
    }
  }

  function DeleteProviders(providers: map<string, ProviderRow>, losers: set<string>): map<string, ProviderRow> {
    map id | id in providers && id !in losers :: providers[id]
  }

  function UpdateWinner(providers: map<string, ProviderRow>, plan: GroupPlan): map<string, ProviderRow>
    requires plan.winner.id in providers
  {
    var row := providers[plan.winner.id];
    providers[plan.winner.id := row.(baseUrl := plan.canonical, wallet := Coalesce(row.wallet, plan.walletToSet))]
  }

  lemma HeirsStep(before: seq<GroupPlan>, plan: GroupPlan)
    requires Apart(before, plan)
    ensures Heirs(before + [plan]) == Extend(Heirs(before), LoserIds(plan), plan.winner.id)
    ensures Fresh(Heirs(before), LoserIds(plan), plan.winner.id)
  {
    assert (before + [plan])[..|before|] == before;
    HeirsApart(before, plan);
  }

  // Deleting the losers and rewriting the winner is one step of the merge.
  lemma ProvidersStep(canon: Canon, providers: map<string, ProviderRow>, before: seq<GroupPlan>, plan: GroupPlan)
    requires NextPlan(canon, providers, before, plan)
    requires forall id :: id in providers ==> providers[id].id == id
    ensures var w := plan.winner.id;
            var left := DeleteProviders(RewriteProviders(providers, before), LoserIds(plan));
            && w in left && left[w] == plan.winner
            && UpdateWinner(left, plan) == RewriteProviders(providers, before + [plan])
            && (plan.winner.baseUrl == plan.canonical && plan.walletToSet == plan.winner.wallet
                ==> left == UpdateWinner(left, plan))
  {
    HeirsStep(before, plan);
    RewrittenMeaning(plan.winner, before);
    var left := DeleteProviders(RewriteProviders(providers, before), LoserIds(plan));
    var right := RewriteProviders(providers, before + [plan]);
    assert (before + [plan])[..|before|] == before;
    assert left.Keys == right.Keys;
    forall id | id in right
      ensures right[id] == UpdateWinner(left, plan)[id]
    {
      RewrittenMeaning(providers[id], before);
    }
    assert UpdateWinner(left, plan).Keys == right.Keys;
  }

  // No base_url collides with the one that the winner gets: a row that had it already belonged to
  // the group.
  lemma UrlsStayUnique(canon: Canon, providers: map<string, ProviderRow>, before: seq<GroupPlan>, plan: GroupPlan)
    requires NextPlan(canon, providers, before, plan) && Lawful(canon)
    requires forall id :: id in providers ==> providers[id].id == id
    requires UniqueUrls(RewriteProviders(providers, before))
    ensures UniqueUrls(RewriteProviders(providers, before + [plan]))
  {
    ProvidersStep(canon, providers, before, plan);
    var left := DeleteProviders(RewriteProviders(providers, before), LoserIds(plan));
    forall id | id in left && id != plan.winner.id
      ensures left[id].baseUrl != plan.canonical
    {
      RewrittenMeaning(providers[id], before);
      assert id !in LoserIds(plan);
    }
  }

  // ---------------------------------------------------------------------------------------------
  // Consistency
  // ---------------------------------------------------------------------------------------------

  // Every heir is a provider that stays.
  ghost predicate HeirsStay(providers: map<string, ProviderRow>, heirs: map<string, string>) {
    forall id :: id in providers ==> Heir(heirs, id) in providers && Heir(heirs, id) !in heirs
  }

  lemma HeirsStayStep(canon: Canon, providers: map<string, ProviderRow>, before: seq<GroupPlan>, plan: GroupPlan)
    requires NextPlan(canon, providers, before, plan) && HeirsStay(providers, Heirs(before))
    ensures HeirsStay(providers, Heirs(before + [plan]))
  {
    HeirsStep(before, plan);
  }

  lemma MergedRefers(t: Tables, plans: seq<GroupPlan>)
    requires References(t) && HeirsStay(t.providers, Heirs(plans))
    ensures References(Merged(t, plans))
  {
    var providers := RewriteProviders(t.providers, plans);
    assert forall id :: id in t.providers && id !in Heirs(plans) ==> id in providers;
  }
}
