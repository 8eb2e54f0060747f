/**
 The migration script itself: the statements of one plan in their order, and the transaction around
 the plans. A statement that violates a constraint throws, and the catch block rolls back.
 */
module MergeTransaction {

  import opened Wrappers
  import opened MergePlan
  import opened MergeRun

  datatype Summary = Summary(
    mergedProviders: nat, rewrittenBaseUrls: nat, calls: nat, claims: nat,
    adjustmentsMoved: nat, adjustmentsDropped: nat, outages: nat)

  datatype Outcome = NoPlans | Committed(summary: Summary) | RolledBackDry(summary: Summary) | Aborted

  function ChildrenOf(children: map<string, Child>, owners: set<string>): set<string> {
    set k | k in children && children[k].provider in owners
  }

  // No child row points at a provider that is about to be deleted.
  predicate Unreferenced(children: map<string, Child>, owners: set<string>) {
    forall k :: k in children ==> children[k].provider !in owners
  }

  // What a run has done after some of its plans.
  ghost predicate Reached(t: Tables, plans: seq<GroupPlan>, now: Tables) {
    && now == Merged(t, plans)
    && UniqueUrls(now.providers) && UniqueAdjustments(now.adjustments)
    && HeirsStay(t.providers, Heirs(plans))
    && !Conflict(t.adjustments, Heirs(plans))
  }

  // The counters of the child tables say how many rows have changed hands or were dropped.
  ghost predicate Counted(t: Tables, heirs: map<string, string>, now: Tables, s: Summary) {
    && s.calls == |ChildrenOf(t.calls, heirs.Keys)|
    && s.claims == |ChildrenOf(t.claims, heirs.Keys)|
    && s.outages == |ChildrenOf(t.outages, heirs.Keys)|
    && s.adjustmentsMoved + s.adjustmentsDropped == |HeldBy(t.adjustments, heirs.Keys)|
    && s.adjustmentsDropped + |now.adjustments| == |t.adjustments|
  }

  // The children are where the heirs say.
  ghost predicate Placed(t: Tables, heirs: map<string, string>, now: Tables) {
    && now.calls == Inherit(t.calls, heirs) && now.claims == Inherit(t.claims, heirs)
    && now.outages == Inherit(t.outages, heirs) && now.adjustments == InheritAdjustments(t.adjustments, heirs)
    && UniqueAdjustments(now.adjustments)
  }

  lemma ChildCounts(children: map<string, Child>, heirs: map<string, string>, losers: set<string>, winner: string)
    requires Fresh(heirs, losers, winner)
    ensures |ChildrenOf(children, Extend(heirs, losers, winner).Keys)|
         == |ChildrenOf(children, heirs.Keys)| + |ChildrenOf(Inherit(children, heirs), losers)|
    ensures Unreferenced(Inherit(children, Extend(heirs, losers, winner)), losers)
  {
    var next := Extend(heirs, losers, winner);
    var a, b := ChildrenOf(children, heirs.Keys), ChildrenOf(Inherit(children, heirs), losers);
    assert ChildrenOf(children, next.Keys) == a + b && a !! b;
  }

  lemma HeldCounts(adjustments: map<string, Adjustment>, heirs: map<string, string>, losers: set<string>,
                   winner: string)
    requires Fresh(heirs, losers, winner)
    ensures |HeldBy(adjustments, Extend(heirs, losers, winner).Keys)|
         == |HeldBy(adjustments, heirs.Keys)| + |HeldBy(InheritAdjustments(adjustments, heirs), losers)|
  {
    LoserRowsKept(adjustments, heirs, losers, winner);
    var a, b := HeldBy(adjustments, heirs.Keys), HeldBy(adjustments, losers);
    assert HeldBy(adjustments, Extend(heirs, losers, winner).Keys) == a + b && a !! b;
  }

  // The losers of a plan are distinct rows, all present.
  lemma LoserCount(rows: seq<ProviderRow>)
    requires forall i, j :: 0 <= i < j < |rows| ==> rows[i].id != rows[j].id
    ensures |set l | l in rows :: l.id| == |rows|
  {
    if rows != [] {
      var n := |rows| - 1;
      LoserCount(rows[..n]);
      assert rows == rows[..n] + [rows[n]];
      assert (set l | l in rows :: l.id) == (set l | l in rows[..n] :: l.id) + {rows[n].id};
      assert rows[n].id !in (set l | l in rows[..n] :: l.id);
    }
  }

  // An UPDATE of one child table, with its row count.
  method UpdateChildren(children: map<string, Child>, losers: set<string>, winner: string,
                        ghost first: map<string, Child>, ghost heirs: map<string, string>)
    returns (moved: map<string, Child>, rowCount: nat)
    requires Fresh(heirs, losers, winner) && children == Inherit(first, heirs)
    ensures moved == Inherit(first, Extend(heirs, losers, winner)) && Unreferenced(moved, losers)
    ensures rowCount + |ChildrenOf(first, heirs.Keys)| == |ChildrenOf(first, Extend(heirs, losers, winner).Keys)|
  {
    ReparentStep(first, heirs, losers, winner);
    ChildCounts(first, heirs, losers, winner);
    moved := Reparent(children, losers, winner);
    rowCount := |ChildrenOf(children, losers)|;
  }

  // The conflict-free move and the delete of what is left, with their row counts; ok is false when
  // the move violates UNIQUE(agent_id, provider_id).
  method UpdateAdjustments(adjustments: map<string, Adjustment>, losers: set<string>, winner: string,
                           ghost first: map<string, Adjustment>, ghost heirs: map<string, string>)
    returns (ok: bool, left: map<string, Adjustment>, movedRows: nat, droppedRows: nat)
    requires Fresh(heirs, losers, winner)
    requires adjustments == InheritAdjustments(first, heirs) && UniqueAdjustments(adjustments)
    ensures ok <==> !ClashIn(first, losers, winner)
    ensures ok ==> left == InheritAdjustments(first, Extend(heirs, losers, winner)) && UniqueAdjustments(left)
    ensures !ok ==> left == adjustments && movedRows == droppedRows == 0
    ensures ok ==> HeldBy(left, losers) == {} && droppedRows + |left| == |adjustments|
    ensures ok ==>
              movedRows + droppedRows + |HeldBy(first, heirs.Keys)|
                    == |HeldBy(first, Extend(heirs, losers, winner).Keys)|
  {
    UniqueAfterMove(adjustments, losers, winner);
    ClashKept(first, heirs, losers, winner);
    AdjustmentCounts(adjustments, losers, winner);
    AdjustmentsStep(first, heirs, losers, winner);
    HeldCounts(first, heirs, losers, winner);
    var moved := MoveAdjustments(adjustments, losers, winner);
    if !UniqueAdjustments(moved) { return false, adjustments, 0, 0; }
    left := DeleteAdjustments(moved, losers);
    ok, movedRows, droppedRows := true, |Movable(adjustments, losers, winner)|, |HeldBy(moved, losers)|;
  }

  // No foreign key points at one of the owners.
  predicate Unowned(t: Tables, owners: set<string>) {
    && Unreferenced(t.calls, owners) && Unreferenced(t.claims, owners) && Unreferenced(t.outages, owners)
    && HeldBy(t.adjustments, owners) == {}
  }

  ghost predicate SameProviderCounts(s: Summary, s': Summary) {
    s.mergedProviders == s'.mergedProviders && s.rewrittenBaseUrls == s'.rewrittenBaseUrls
  }

  ghost function RewriteCount(plans: seq<GroupPlan>): nat {
    if plans == [] then 0
    else
      var n := |plans| - 1;
      RewriteCount(plans[..n]) + if plans[n].winner.baseUrl != plans[n].canonical then 1 else 0
  }

  // All counters, after some plans.
  ghost predicate Tallied(t: Tables, plans: seq<GroupPlan>, now: Tables, s: Summary) {
    && Counted(t, Heirs(plans), now, s)
    && s.mergedProviders + |now.providers| == |t.providers|
    && s.rewrittenBaseUrls == RewriteCount(plans)
  }

  lemma LosersStored(canon: Canon, providers: map<string, ProviderRow>, before: seq<GroupPlan>, plan: GroupPlan)
    requires NextPlan(canon, providers, before, plan)
    ensures var now := RewriteProviders(providers, before);
            |DeleteProviders(now, LoserIds(plan))| + |LoserIds(plan)| == |now|
  {
    HeirsApart(before, plan);
    var now := RewriteProviders(providers, before);
    var left := DeleteProviders(now, LoserIds(plan));
    assert left.Keys + LoserIds(plan) == now.Keys && left.Keys !! LoserIds(plan);
    assert |left| == |left.Keys| && |now| == |now.Keys|;
  }

  // A run that has come this far and the plan that follows.
  ghost predicate Going(canon: Canon, t: Tables, before: seq<GroupPlan>, plan: GroupPlan) {
    && NextPlan(canon, t.providers, before, plan) && Lawful(canon)
    && (forall id :: id in t.providers ==> t.providers[id].id == id) && References(t)
    && (forall i, j :: 0 <= i < j < |plan.losers| ==> plan.losers[i].id != plan.losers[j].id)
    && UniqueUrls(RewriteProviders(t.providers, before)) && HeirsStay(t.providers, Heirs(before))
    && !Conflict(t.adjustments, Heirs(before))
  }

  // What the statements on the child tables meet.
  lemma ChildFacts(canon: Canon, t: Tables, before: seq<GroupPlan>, plan: GroupPlan)
    requires Going(canon, t, before, plan)
    ensures var losers, w := LoserIds(plan), plan.winner.id;
            && Fresh(Heirs(before), losers, w)
            && Heirs(before + [plan]) == Extend(Heirs(before), losers, w)
            && (Conflict(t.adjustments, Heirs(before + [plan])) <==> ClashIn(t.adjustments, losers, w))
  {
    HeirsStep(before, plan);
    ConflictStep(t.adjustments, Heirs(before), LoserIds(plan), plan.winner.id);
  }

  // What the statements on the providers meet.
  lemma ProviderFacts(canon: Canon, t: Tables, before: seq<GroupPlan>, plan: GroupPlan)
    requires Going(canon, t, before, plan)
    ensures var left := DeleteProviders(RewriteProviders(t.providers, before), LoserIds(plan));
            && plan.winner.id in left && UniqueUrls(left)
            && UpdateWinner(left, plan) == RewriteProviders(t.providers, before + [plan])
            && UniqueUrls(UpdateWinner(left, plan))
            && (plan.winner.baseUrl == plan.canonical && plan.walletToSet == plan.winner.wallet
                ==> left == UpdateWinner(left, plan))
  {
    ProvidersStep(canon, t.providers, before, plan);
    UrlsStayUnique(canon, t.providers, before, plan);
  }

  lemma ProviderCount(canon: Canon, t: Tables, before: seq<GroupPlan>, plan: GroupPlan)
    requires Going(canon, t, before, plan)
    ensures var now := RewriteProviders(t.providers, before);
            var left := DeleteProviders(now, LoserIds(plan));
            plan.winner.id in left && |UpdateWinner(left, plan)| + |plan.losers| == |now|
  {
    LoserCount(plan.losers);
    LosersStored(canon, t.providers, before, plan);
    ProvidersStep(canon, t.providers, before, plan);
    var left := DeleteProviders(RewriteProviders(t.providers, before), LoserIds(plan));
    assert UpdateWinner(left, plan).Keys == left.Keys;
    assert |UpdateWinner(left, plan).Keys| == |UpdateWinner(left, plan)| && |left.Keys| == |left|;
  }

  // Statement 6 finds the winner, and skipping it makes no difference when it would change nothing.
  ghost predicate Rewritable(providers: map<string, ProviderRow>, plan: GroupPlan) {
    && plan.winner.id in providers && UniqueUrls(providers)
    && (plan.winner.baseUrl == plan.canonical && plan.walletToSet == plan.winner.wallet
        ==> UpdateWinner(providers, plan) == providers)
  }

  // What statement 6 meets, and what it leaves.
  lemma WinnerFacts(canon: Canon, t: Tables, before: seq<GroupPlan>, plan: GroupPlan,
                    stored: map<string, ProviderRow>, left: map<string, ProviderRow>)
    requires Going(canon, t, before, plan)
    requires stored == RewriteProviders(t.providers, before) && left == DeleteProviders(stored, LoserIds(plan))
    ensures Rewritable(left, plan) && UniqueUrls(UpdateWinner(left, plan))
    ensures UpdateWinner(left, plan) == RewriteProviders(t.providers, before + [plan])
    ensures |UpdateWinner(left, plan)| + |plan.losers| == |stored|
  {
    ProviderFacts(canon, t, before, plan);
    ProviderCount(canon, t, before, plan);
  }

  // Statements 1 to 5 have been done.
  ghost predicate LosersMerged(t: Tables, next: map<string, string>, plan: GroupPlan,
                               tables0: Tables, summary0: Summary, tables: Tables, summary: Summary)
  {
    && Placed(t, next, tables) && Counted(t, next, tables, summary)
    && tables.providers == DeleteProviders(tables0.providers, LoserIds(plan))
    && summary.mergedProviders == summary0.mergedProviders + |plan.losers|
    && summary.rewrittenBaseUrls == summary0.rewrittenBaseUrls
  }

  // With statement 6 the run has come one plan further.
  lemma PlanReached(canon: Canon, t: Tables, before: seq<GroupPlan>, plan: GroupPlan, now: Tables)
    requires Going(canon, t, before, plan) && !Conflict(t.adjustments, Heirs(before + [plan]))
    requires Placed(t, Heirs(before + [plan]), now)
    requires now.providers == RewriteProviders(t.providers, before + [plan])
    ensures Reached(t, before + [plan], now)
  {
    UrlsStayUnique(canon, t.providers, before, plan);
    HeirsStayStep(canon, t.providers, before, plan);
    assert now == Merged(t, before + [plan]);
  }

  lemma RewriteCountStep(before: seq<GroupPlan>, plan: GroupPlan)
    ensures RewriteCount(before + [plan])
         == RewriteCount(before) + if plan.winner.baseUrl != plan.canonical then 1 else 0
  {
    assert (before + [plan])[..|before|] == before;
  }

  lemma PlanTallied(t: Tables, before: seq<GroupPlan>, plan: GroupPlan,
                    tables0: Tables, summary0: Summary, mid: Tables, midSummary: Summary,
                    providers: map<string, ProviderRow>)
    requires Tallied(t, before, tables0, summary0)
    requires LosersMerged(t, Heirs(before + [plan]), plan, tables0, summary0, mid, midSummary)
    requires |providers| + |plan.losers| == |tables0.providers|
    ensures var extra := if plan.winner.baseUrl != plan.canonical then 1 else 0;
            Tallied(t, before + [plan], mid.(providers := providers),
                    midSummary.(rewrittenBaseUrls := midSummary.rewrittenBaseUrls + extra))
  {
    RewriteCountStep(before, plan);
  }

  lemma ExtendByNothing(heirs: map<string, string>, providers: map<string, ProviderRow>, plan: GroupPlan)
    requires plan.losers == []
    ensures LoserIds(plan) == {} && Extend(heirs, LoserIds(plan), plan.winner.id) == heirs
    ensures DeleteProviders(providers, LoserIds(plan)) == providers
  {
    assert Extend(heirs, {}, plan.winner.id) == heirs;
    assert DeleteProviders(providers, {}) == providers;
  }

  lemma PlanDone(canon: Canon, t: Tables, before: seq<GroupPlan>, plan: GroupPlan,
                 tables0: Tables, summary0: Summary, mid: Tables, midSummary: Summary)
    requires Going(canon, t, before, plan) && !Conflict(t.adjustments, Heirs(before + [plan]))
    requires tables0.providers == RewriteProviders(t.providers, before) && Tallied(t, before, tables0, summary0)
    requires LosersMerged(t, Heirs(before + [plan]), plan, tables0, summary0, mid, midSummary)
    requires Rewritable(mid.providers, plan)
    ensures var extra := if plan.winner.baseUrl != plan.canonical then 1 else 0;
            var now := mid.(providers := UpdateWinner(mid.providers, plan));
            && Reached(t, before + [plan], now)
            && Tallied(t, before + [plan], now,
                       midSummary.(rewrittenBaseUrls := midSummary.rewrittenBaseUrls + extra))
  {
    var providers := UpdateWinner(mid.providers, plan);
    WinnerFacts(canon, t, before, plan, tables0.providers, mid.providers);
    PlanTallied(t, before, plan, tables0, summary0, mid, midSummary, providers);
    PlanReached(canon, t, before, plan, mid.(providers := providers));
  }

  // A plan without losers has nothing to do up to statement 5.
  lemma NoLosers(t: Tables, before: seq<GroupPlan>, plan: GroupPlan, tables: Tables, summary: Summary)
    requires plan.losers == [] && Heirs(before + [plan]) == Extend(Heirs(before), LoserIds(plan), plan.winner.id)
    requires Placed(t, Heirs(before), tables) && Counted(t, Heirs(before), tables, summary)
    ensures LosersMerged(t, Heirs(before + [plan]), plan, tables, summary, tables, summary)
    ensures !ClashIn(t.adjustments, LoserIds(plan), plan.winner.id)
  {
    ExtendByNothing(Heirs(before), tables.providers, plan);
  }

  ghost predicate NoRepeats(rows: seq<ProviderRow>) {
    forall i, j :: 0 <= i < j < |rows| ==> rows[i] != rows[j]
  }

  lemma {:induction false} BucketNoRepeats(canon: Canon, rows: seq<ProviderRow>, host: string)
    requires NoRepeats(rows)
    ensures NoRepeats(Bucket(canon, rows, host))
  {
    if rows != [] {
      var n := |rows| - 1;
      BucketNoRepeats(canon, rows[..n], host);
      BucketMeaning(canon, rows[..n], host);
      assert rows[n] !in rows[..n];
      assert rows[n] !in Bucket(canon, rows[..n], host);
    }
  }

  lemma {:induction false} WithoutNoRepeats(rows: seq<ProviderRow>, id: string)
    requires NoRepeats(rows)
    ensures NoRepeats(Without(rows, id))
  {
    if rows != [] {
      WithoutNoRepeats(rows[1..], id);
      assert rows[0] !in rows[1..];
      assert rows[0] !in Without(rows[1..], id);
    }
  }

  ghost predicate PlanReady(canon: Canon, t: Tables, plans: seq<GroupPlan>, i: nat)
    requires i < |plans|
  {
    && Lawful(canon) && (forall id :: id in t.providers ==> t.providers[id].id == id) && References(t)
    && NextPlan(canon, t.providers, plans[..i], plans[i])
    && forall a, b :: 0 <= a < b < |plans[i].losers| ==> plans[i].losers[a].id != plans[i].losers[b].id
  }

  // The plans of one run on sound tables, each ready when those before it are done.
  ghost predicate PlanList(canon: Canon, t: Tables, plans: seq<GroupPlan>) {
    forall i: nat :: i < |plans| ==> PlanReady(canon, t, plans, i)
  }

  lemma LosersDiffer(canon: Canon, t: Tables, rows: seq<ProviderRow>, plan: GroupPlan)
    requires Setting(canon, t, rows) && PlanFits(canon, rows, plan)
    ensures forall i, j :: 0 <= i < j < |plan.losers| ==> plan.losers[i].id != plan.losers[j].id
  {
    PlanMembers(canon, rows, plan);
    BucketNoRepeats(canon, rows, plan.canonical);
    WithoutNoRepeats(Bucket(canon, rows, plan.canonical), plan.winner.id);
    forall a, b | 0 <= a < b < |plan.losers|
      ensures plan.losers[a].id != plan.losers[b].id
    {
      assert plan.losers[a] in rows && plan.losers[b] in rows;
    }
  }

  lemma PlansAreList(canon: Canon, t: Tables, rows: seq<ProviderRow>)
    requires Setting(canon, t, rows)
    ensures PlanList(canon, t, Plans(canon, rows))
  {
    var plans := Plans(canon, rows);
    PlansMeaning(canon, rows);
    forall i: nat | i < |plans|
      ensures PlanReady(canon, t, plans, i)
    {
      PlansApart(canon, t, rows, i);
      assert plans[i] in plans;
      LosersDiffer(canon, t, rows, plans[i]);
    }
  }

  lemma InheritNothing(children: map<string, Child>)
    ensures Inherit(children, map[]) == children && ChildrenOf(children, {}) == {}
  {
  }

  lemma InheritNoAdjustments(adjustments: map<string, Adjustment>)
    ensures InheritAdjustments(adjustments, map[]) == adjustments && HeldBy(adjustments, {}) == {}
    ensures !Conflict(adjustments, map[])
  {
  }

  lemma StartReached(t: Tables, s: Summary)
    requires UniqueUrls(t.providers) && UniqueAdjustments(t.adjustments) && References(t)
    requires s == Summary(0, 0, 0, 0, 0, 0, 0)
    ensures Reached(t, [], t) && Tallied(t, [], t, s)
  {
    InheritNothing(t.calls);
    InheritNothing(t.claims);
    InheritNothing(t.outages);
    InheritNoAdjustments(t.adjustments);
    assert RewriteProviders(t.providers, []) == t.providers;
  }

  // Later plans do not settle a conflict.
  lemma {:induction false} ConflictStays(canon: Canon, t: Tables, plans: seq<GroupPlan>, i: nat)
    requires PlanList(canon, t, plans) && i <= |plans|
    requires Conflict(t.adjustments, Heirs(plans[..i]))
    ensures Conflict(t.adjustments, Heirs(plans[..|plans|]))
    decreases |plans| - i
  {
    if i < |plans| {
      assert PlanReady(canon, t, plans, i);
      HeirsStep(plans[..i], plans[i]);
      ConflictStep(t.adjustments, Heirs(plans[..i]), LoserIds(plans[i]), plans[i].winner.id);
      TakeOneMore(plans, i);
      ConflictStays(canon, t, plans, i + 1);
    }
  }

  lemma MergedConsistent(t: Tables, plans: seq<GroupPlan>)
    requires Consistent(t) && Reached(t, plans, Merged(t, plans))
    ensures Consistent(Merged(t, plans))
  {
    MergedRefers(t, plans);
    var providers := Merged(t, plans).providers;
    forall id | id in providers
      ensures providers[id].id == id
    {
      RewrittenMeaning(t.providers[id], plans);
    }
  }

  class Database {
    var tables: Tables
    var summary: Summary

    // Statements 1 to 4 of a plan: the child rows. ok is false when one violates a constraint.
    method MoveChildRows(losers: set<string>, winner: string, ghost t: Tables, ghost heirs: map<string, string>)
      returns (ok: bool)
      requires Fresh(heirs, losers, winner)
      requires Placed(t, heirs, tables) && Counted(t, heirs, tables, summary)
      modifies this
      ensures ok <==> !ClashIn(t.adjustments, losers, winner)
      ensures ok ==>
                var next := Extend(heirs, losers, winner);
                && Placed(t, next, tables) && Counted(t, next, tables, summary)
                && tables.providers == old(tables).providers && SameProviderCounts(summary, old(summary))
                && Unowned(tables, losers)
      ensures !ok ==> tables == old(tables).(calls := tables.calls, claims := tables.claims)
    {
      var calls, c := UpdateChildren(tables.calls, losers, winner, t.calls, heirs);
      tables, summary := tables.(calls := calls), summary.(calls := summary.calls + c);
      var claims, d := UpdateChildren(tables.claims, losers, winner, t.claims, heirs);
      tables, summary := tables.(claims := claims), summary.(claims := summary.claims + d);
      var adjustments, moved, dropped;
      ok, adjustments, moved, dropped := UpdateAdjustments(tables.adjustments, losers, winner, t.adjustments, heirs);
      if !ok { return; }
      tables := tables.(adjustments := adjustments);
      summary := summary.(adjustmentsMoved := summary.adjustmentsMoved + moved,
                          adjustmentsDropped := summary.adjustmentsDropped + dropped);
      var outages, o := UpdateChildren(tables.outages, losers, winner, t.outages, heirs);
      tables, summary := tables.(outages := outages), summary.(outages := summary.outages + o);
      assert Unowned(tables, losers);
      assert Placed(t, Extend(heirs, losers, winner), tables);
    }

    // Statement 5: the losers. ok is false when a foreign key still points at one of them.
    method DeleteLosers(losers: set<string>, count: nat) returns (ok: bool)
      modifies this
      ensures ok <==> Unowned(old(tables), losers)
      ensures ok ==> tables == old(tables).(providers := DeleteProviders(old(tables).providers, losers))
      ensures ok ==> summary == old(summary).(mergedProviders := old(summary).mergedProviders + count)
      ensures !ok ==> unchanged(this)
    {
      ok := Unowned(tables, losers);
      if !ok { return; }
      tables := tables.(providers := DeleteProviders(tables.providers, losers));
      summary := summary.(mergedProviders := summary.mergedProviders + count);
    }

    // Statement 6. ok is false when it violates UNIQUE(base_url).
    method RewriteWinner(plan: GroupPlan) returns (ok: bool)
      requires Rewritable(tables.providers, plan)
      modifies this
      ensures ok <==> UniqueUrls(UpdateWinner(old(tables).providers, plan))
      ensures ok ==> tables == old(tables).(providers := UpdateWinner(old(tables).providers, plan))
      ensures ok ==> summary == old(summary).(rewrittenBaseUrls := old(summary).rewrittenBaseUrls
                                         + if plan.winner.baseUrl != plan.canonical then 1 else 0)
      ensures !ok ==> unchanged(this)
    {
      if plan.winner.baseUrl != plan.canonical || plan.walletToSet != plan.winner.wallet {
        var providers := UpdateWinner(tables.providers, plan);
        if !UniqueUrls(providers) { return false; }
        tables := tables.(providers := providers);
        if plan.winner.baseUrl != plan.canonical {
          summary := summary.(rewrittenBaseUrls := summary.rewrittenBaseUrls + 1);
        }
      }
      ok := true;
    }

    // Statements 1 to 5.
    method MergeLosers(plan: GroupPlan, ghost t: Tables, ghost heirs: map<string, string>) returns (ok: bool)
      requires plan.losers != []
      requires Fresh(heirs, LoserIds(plan), plan.winner.id)
      requires Placed(t, heirs, tables) && Counted(t, heirs, tables, summary)
      modifies this
      ensures ok <==> !ClashIn(t.adjustments, LoserIds(plan), plan.winner.id)
      ensures ok ==>
                var next := Extend(heirs, LoserIds(plan), plan.winner.id);
                LosersMerged(t, next, plan, old(tables), old(summary), tables, summary)
    {
      var losers := set l | l in plan.losers :: l.id;
      ok := MoveChildRows(losers, plan.winner.id, t, heirs);
      if ok {
        ok := DeleteLosers(losers, |plan.losers|);
      }
    }

    // All statements of a plan.
    method ApplyPlan(plan: GroupPlan, ghost canon: Canon, ghost t: Tables, ghost before: seq<GroupPlan>)
      returns (ok: bool)
      requires Going(canon, t, before, plan)
      requires Reached(t, before, tables) && Tallied(t, before, tables, summary)
      modifies this
      ensures ok <==> !Conflict(t.adjustments, Heirs(before + [plan]))
      ensures ok ==> Reached(t, before + [plan], tables) && Tallied(t, before + [plan], tables, summary)
    {
      ChildFacts(canon, t, before, plan);
      if |plan.losers| > 0 {
        ok := MergeLosers(plan, t, Heirs(before));
        if !ok { return; }
      } else {
        NoLosers(t, before, plan, tables, summary);
      }
      ok := FinishPlan(plan, canon, t, before, old(tables), old(summary));
    }

    // Statement 6, and with it the plan.
    method FinishPlan(plan: GroupPlan, ghost canon: Canon, ghost t: Tables, ghost before: seq<GroupPlan>,
                      ghost tables0: Tables, ghost summary0: Summary)
      returns (ok: bool)
      requires Going(canon, t, before, plan) && !Conflict(t.adjustments, Heirs(before + [plan]))
      requires tables0.providers == RewriteProviders(t.providers, before) && Tallied(t, before, tables0, summary0)
      requires LosersMerged(t, Heirs(before + [plan]), plan, tables0, summary0, tables, summary)
      modifies this
      ensures ok && Reached(t, before + [plan], tables) && Tallied(t, before + [plan], tables, summary)
    {
      ghost var mid, midSummary := tables, summary;
      assert Rewritable(mid.providers, plan) && UniqueUrls(UpdateWinner(mid.providers, plan)) by {
        WinnerFacts(canon, t, before, plan, tables0.providers, mid.providers);
      }
      ok := RewriteWinner(plan);
      assert ok && tables == mid.(providers := UpdateWinner(mid.providers, plan));
      PlanDone(canon, t, before, plan, tables0, summary0, mid, midSummary);
    }

    method ApplyNext(plans: seq<GroupPlan>, i: nat, ghost canon: Canon, ghost t: Tables) returns (ok: bool)
      requires i < |plans| && PlanList(canon, t, plans)
      requires Reached(t, plans[..i], tables) && Tallied(t, plans[..i], tables, summary)
      modifies this
      ensures ok <==> !Conflict(t.adjustments, Heirs(plans[..i + 1]))
      ensures ok ==> Reached(t, plans[..i + 1], tables) && Tallied(t, plans[..i + 1], tables, summary)
    {
      TakeOneMore(plans, i);
      assert PlanReady(canon, t, plans, i);
      ok := ApplyPlan(plans[i], canon, t, plans[..i]);
    }

    // The plans, one after the other; ok is false when one of them throws.
    method ApplyPlans(plans: seq<GroupPlan>, ghost canon: Canon, ghost t: Tables) returns (ok: bool)
      requires PlanList(canon, t, plans)
      requires Reached(t, plans[..0], tables) && Tallied(t, plans[..0], tables, summary)
      modifies this
      ensures ok <==> !Conflict(t.adjustments, Heirs(plans[..|plans|]))
      ensures ok ==> Reached(t, plans[..|plans|], tables) && Tallied(t, plans[..|plans|], tables, summary)
    {
      for i := 0 to |plans|
        invariant Reached(t, plans[..i], tables) && Tallied(t, plans[..i], tables, summary)
      {
        ok := ApplyNext(plans, i, canon, t);
        if !ok {
          ConflictStays(canon, t, plans, i + 1);
          return;
        }
      }
      ok := true;
    }

    /**
     The migration. The transaction aborts exactly on a conflict, and then, as in a dry run, no table
     has changed; otherwise it commits the merge, which is consistent again.
     */
    method Run(canon: Canon, rows: seq<ProviderRow>, dryRun: bool) returns (outcome: Outcome)
      requires Setting(canon, tables, rows)
      modifies this
      ensures outcome.NoPlans? <==> Plans(canon, rows) == []
      ensures outcome.Aborted? <==> Conflict(old(tables).adjustments, Heirs(Plans(canon, rows)))
      ensures outcome.Committed? ==>
                && !dryRun && tables == Merged(old(tables), Plans(canon, rows)) && Consistent(tables)
                && Tallied(old(tables), Plans(canon, rows), tables, outcome.summary)
      ensures !outcome.Committed? ==> tables == old(tables)
      ensures outcome.RolledBackDry? ==>
                && dryRun
                && Tallied(old(tables), Plans(canon, rows), Merged(old(tables), Plans(canon, rows)), outcome.summary)
      ensures dryRun && !outcome.NoPlans? && !outcome.Aborted? ==> outcome.RolledBackDry?
    {
      var plans := PlanGroups(canon, rows);
      if |plans| == 0 { return NoPlans; }
      var begin := tables;
      summary := Summary(0, 0, 0, 0, 0, 0, 0);
      StartReached(begin, summary);
      PlansAreList(canon, begin, rows);
      assert plans[..0] == [] && plans[..|plans|] == plans;
      var ok := ApplyPlans(plans, canon, begin);
      if !ok {
        tables := begin;
        outcome := Aborted;
      } else if dryRun {
        tables := begin;
        outcome := RolledBackDry(summary);
      } else {
        MergedConsistent(begin, plans);
        outcome := Committed(summary);
      }
    }
  }
}
