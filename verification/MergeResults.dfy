/**
 What the committed migration means, in terms of hostnames: no plan, order or tie is mentioned here.
 */
module MergeResults {

  import opened Wrappers
  import opened MergePlan
  import opened MergeRun
  import opened MergeTransaction

  ghost function After(canon: Canon, t: Tables, rows: seq<ProviderRow>): Tables {
    Merged(t, Plans(canon, rows))
  }

  ghost function HeirIn(canon: Canon, rows: seq<ProviderRow>, id: string): string {
    Heir(Heirs(Plans(canon, rows)), id)
  }

  // The hostname of a provider.
  ghost function HostOf(canon: Canon, providers: map<string, ProviderRow>, id: string): Option<string>
    requires id in providers
  {
    canon(providers[id].baseUrl)
  }

  // ---------------------------------------------------------------------------------------------
  // Heirs
  // ---------------------------------------------------------------------------------------------

  lemma PlannedHost(canon: Canon, t: Tables, rows: seq<ProviderRow>, id: string, p: GroupPlan)
    requires Setting(canon, t, rows) && id in t.providers && PlanFits(canon, rows, p)
    ensures WellPlanned(canon, t.providers, p)
    ensures Bucket(canon, rows, p.canonical) != [] && p.winner == WinnerOf(canon, rows, p.canonical)
    ensures id in LoserIds(p) <==> HostOf(canon, t.providers, id) == Some(p.canonical) && id != p.winner.id
  {
    PlansAreWellPlanned(canon, t, rows, p);
    PlanMembers(canon, rows, p);
  }

  /** The heir of a provider is the winner of its hostname; an unparseable provider has no heir but itself. */
  lemma HeirIsWinner(canon: Canon, t: Tables, rows: seq<ProviderRow>, id: string)
    requires Setting(canon, t, rows) && id in t.providers
    ensures match HostOf(canon, t.providers, id)
            case None => HeirIn(canon, rows, id) == id
            case Some(host) =>
              Bucket(canon, rows, host) != [] && HeirIn(canon, rows, id) == WinnerOf(canon, rows, host).id
  {
    var plans := Plans(canon, rows);
    var row := t.providers[id];
    HeirsMeaning(plans);
    PlansMeaning(canon, rows);
    assert row in rows;
    if id in Heirs(plans) {
      var p :| p in plans && id in LoserIds(p) && Heirs(plans)[id] == p.winner.id;
      PlannedHost(canon, t, rows, id, p);
    } else if canon(row.baseUrl).Some? {
      var host := canon(row.baseUrl).value;
      if p :| p in plans && p.canonical == host {
        PlannedHost(canon, t, rows, id, p);
      } else {
        UnplannedIsAlone(canon, rows, row, host);
      }
    }
  }

  // The winner of a hostname is a stored provider of that hostname, and stays.
  lemma WinnerStays(canon: Canon, t: Tables, rows: seq<ProviderRow>, host: string)
    requires Setting(canon, t, rows) && Bucket(canon, rows, host) != []
    ensures var w := WinnerOf(canon, rows, host);
            && w in rows && w.id in t.providers && t.providers[w.id] == w
            && canon(w.baseUrl) == Some(host) && HeirIn(canon, rows, w.id) == w.id
  {
    BucketMeaning(canon, rows, host);
    var w := WinnerOf(canon, rows, host);
    assert w in rows;
    HeirIsWinner(canon, t, rows, w.id);
  }

  // A provider that gives way gives way to another one.
  lemma HeirIsAnother(canon: Canon, t: Tables, rows: seq<ProviderRow>, id: string)
    requires Setting(canon, t, rows) && id in t.providers
    ensures id in Heirs(Plans(canon, rows)) ==> HeirIn(canon, rows, id) != id
  {
    var plans := Plans(canon, rows);
    HeirsMeaning(plans);
    PlansMeaning(canon, rows);
    if id in Heirs(plans) {
      var p :| p in plans && id in LoserIds(p) && Heirs(plans)[id] == p.winner.id;
      PlannedHost(canon, t, rows, id, p);
    }
  }

  // An heir stays, and it has the hostname of those it stands for.
  lemma HeirStays(canon: Canon, t: Tables, rows: seq<ProviderRow>, id: string)
    requires Setting(canon, t, rows) && id in t.providers
    ensures var h := HeirIn(canon, rows, id);
            && h in t.providers && h !in Heirs(Plans(canon, rows)) && h in After(canon, t, rows).providers
            && HostOf(canon, t.providers, h) == HostOf(canon, t.providers, id)
  {
    HeirIsWinner(canon, t, rows, id);
    var h := HeirIn(canon, rows, id);
    if HostOf(canon, t.providers, id).Some? {
      WinnerStays(canon, t, rows, HostOf(canon, t.providers, id).value);
      HeirIsAnother(canon, t, rows, h);
    } else {
      HeirIsAnother(canon, t, rows, id);
    }
  }

  // ---------------------------------------------------------------------------------------------
  // Providers
  // ---------------------------------------------------------------------------------------------

  lemma {:induction false} RewrittenBy(row: ProviderRow, plans: seq<GroupPlan>, i: nat)
    requires i < |plans| && plans[i].winner.id == row.id
    requires forall j :: 0 <= j < |plans| && j != i ==> plans[j].winner.id != row.id
    ensures Rewritten(row, plans) ==
            row.(baseUrl := plans[i].canonical, wallet := Coalesce(row.wallet, plans[i].walletToSet))
  {
    var n := |plans| - 1;
    if i < n {
      RewrittenBy(row, plans[..n], i);
    } else {
      RewrittenMeaning(row, plans[..n]);
    }
  }

  // Only the plan of its own hostname rewrites a row that stays.
  lemma RewrittenPlanned(canon: Canon, t: Tables, rows: seq<ProviderRow>, id: string, i: nat)
    requires Setting(canon, t, rows) && id in t.providers && i < |Plans(canon, rows)|
    requires HostOf(canon, t.providers, id) == Some(Plans(canon, rows)[i].canonical)
    requires HeirIn(canon, rows, id) == id
    ensures var row, p := t.providers[id], Plans(canon, rows)[i];
            && PlanFits(canon, rows, p)
            && Rewritten(row, Plans(canon, rows)) ==
               row.(baseUrl := p.canonical, wallet := Coalesce(row.wallet, p.walletToSet))
  {
    var plans := Plans(canon, rows);
    PlansMeaning(canon, rows);
    assert plans[i] in plans;
    PlannedHost(canon, t, rows, id, plans[i]);
    HeirIsWinner(canon, t, rows, id);
    forall j | 0 <= j < |plans| && j != i
      ensures plans[j].winner.id != id
    {
      assert plans[j] in plans;
      PlannedHost(canon, t, rows, id, plans[j]);
    }
    RewrittenBy(t.providers[id], plans, i);
  }

  lemma RewrittenUnplanned(canon: Canon, t: Tables, rows: seq<ProviderRow>, id: string, host: string)
    requires Setting(canon, t, rows) && id in t.providers && HostOf(canon, t.providers, id) == Some(host)
    requires forall p :: p in Plans(canon, rows) ==> p.canonical != host
    ensures var row := t.providers[id];
            && Rewritten(row, Plans(canon, rows)) == row && row.baseUrl == host
            && Bucket(canon, rows, host) != [] && row.wallet == PlanOf(Bucket(canon, rows, host), host).walletToSet
  {
    var row := t.providers[id];
    assert row in rows;
    UnplannedIsAlone(canon, rows, row, host);
    PlansMeaning(canon, rows);
    forall p | p in Plans(canon, rows)
      ensures p.winner.id != id
    {
      PlannedHost(canon, t, rows, id, p);
    }
    RewrittenMeaning(row, Plans(canon, rows));
    BucketMeaning(canon, rows, host);
    var plan := PlanOf(Bucket(canon, rows, host), host);
    assert plan.winner == row;
    assert forall l :: l in plan.losers ==> l == row && l.id != row.id;
    HasMember(plan.losers);
  }

  lemma RewrittenAfter(canon: Canon, t: Tables, rows: seq<ProviderRow>, id: string, host: string)
    requires Setting(canon, t, rows) && id in t.providers && HeirIn(canon, rows, id) == id
    requires HostOf(canon, t.providers, id) == Some(host)
    ensures var row, now := t.providers[id], Rewritten(t.providers[id], Plans(canon, rows));
            && Bucket(canon, rows, host) != []
            && var plan := PlanOf(Bucket(canon, rows, host), host);
               now == row.(baseUrl := host, wallet := Coalesce(row.wallet, plan.walletToSet))
  {
    if i: nat :| i < |Plans(canon, rows)| && Plans(canon, rows)[i].canonical == host {
      RewrittenPlanned(canon, t, rows, id, i);
    } else {
      RewrittenUnplanned(canon, t, rows, id, host);
    }
  }

  lemma StaysAsItself(canon: Canon, t: Tables, rows: seq<ProviderRow>, id: string)
    requires Setting(canon, t, rows) && id in After(canon, t, rows).providers
    ensures id in t.providers && HeirIn(canon, rows, id) == id
    ensures After(canon, t, rows).providers[id] == Rewritten(t.providers[id], Plans(canon, rows))
  {
  }

  /**
   Every provider that stays and has a hostname carries that hostname as its base_url, keeps its name,
   category and age, and has a wallet iff some provider of its hostname had one; its own wallet has
   precedence, and otherwise it is one of theirs.
   */
  lemma ParsedProviderAfter(canon: Canon, t: Tables, rows: seq<ProviderRow>, id: string)
    requires Setting(canon, t, rows) && id in After(canon, t, rows).providers
    requires HostOf(canon, t.providers, id).Some?
    ensures var row, now := t.providers[id], After(canon, t, rows).providers[id];
            && HostOf(canon, t.providers, id) == Some(now.baseUrl)
            && now == row.(baseUrl := now.baseUrl, wallet := now.wallet)
            && (row.wallet.Some? ==> now.wallet == row.wallet)
            && (now.wallet.Some? <==> exists r :: r in rows && canon(r.baseUrl) == Some(now.baseUrl) && r.wallet.Some?)
            && (exists r :: r in rows && canon(r.baseUrl) == Some(now.baseUrl) && r.wallet == now.wallet)
            && (row.wallet.None? && now.wallet.Some? ==>
                  exists i: nat :: HasFirstWallet(canon, rows, now.baseUrl, i) && now.wallet == rows[i].wallet)
  {
    var host := HostOf(canon, t.providers, id).value;
    StaysAsItself(canon, t, rows, id);
    RewrittenAfter(canon, t, rows, id, host);
    HeirIsWinner(canon, t, rows, id);
    WinnerStays(canon, t, rows, host);
    BucketMeaning(canon, rows, host);
    var bucket := Bucket(canon, rows, host);
    var plan := PlanOf(bucket, host);
    assert t.providers[id] == plan.winner;
    if r :| r in rows && canon(r.baseUrl) == Some(host) && r.wallet.Some? {
      assert r in bucket && (r.id == plan.winner.id || r in plan.losers);
    }
    if now :| now in plan.losers && now.wallet == plan.walletToSet {
      assert now in rows && canon(now.baseUrl) == Some(host);
    } else {
      assert plan.winner.wallet == plan.walletToSet;
    }
    PlanWallet(canon, rows, host);
  }

  /** Providers whose base_url does not parse are untouched. */
  lemma UnparsedProviderAfter(canon: Canon, t: Tables, rows: seq<ProviderRow>, id: string)
    requires Setting(canon, t, rows) && id in t.providers && HostOf(canon, t.providers, id).None?
    ensures id in After(canon, t, rows).providers && After(canon, t, rows).providers[id] == t.providers[id]
  {
    HeirIsWinner(canon, t, rows, id);
    HeirStays(canon, t, rows, id);
    PlansMeaning(canon, rows);
    forall p | p in Plans(canon, rows)
      ensures p.winner.id != id
    {
      PlannedHost(canon, t, rows, id, p);
    }
    RewrittenMeaning(t.providers[id], Plans(canon, rows));
  }

  lemma HostAfter(canon: Canon, t: Tables, rows: seq<ProviderRow>, id: string)
    requires Setting(canon, t, rows) && id in After(canon, t, rows).providers
    ensures id in t.providers && HeirIn(canon, rows, id) == id
    ensures HostOf(canon, After(canon, t, rows).providers, id) == HostOf(canon, t.providers, id)
  {
    StaysAsItself(canon, t, rows, id);
    if HostOf(canon, t.providers, id).Some? {
      ParsedProviderAfter(canon, t, rows, id);
    } else {
      UnparsedProviderAfter(canon, t, rows, id);
    }
  }

  /** Afterwards a provider's hostname is what it was, and it identifies the provider. */
  lemma HostsAfter(canon: Canon, t: Tables, rows: seq<ProviderRow>, id: string, other: string)
    requires Setting(canon, t, rows)
    requires id in After(canon, t, rows).providers && other in After(canon, t, rows).providers
    ensures var now := After(canon, t, rows).providers;
            && id in t.providers && HostOf(canon, now, id) == HostOf(canon, t.providers, id)
            && (HostOf(canon, now, id).Some? && HostOf(canon, now, id) == HostOf(canon, now, other) ==> id == other)
  {
    HostAfter(canon, t, rows, id);
    HostAfter(canon, t, rows, other);
    HeirIsWinner(canon, t, rows, id);
    HeirIsWinner(canon, t, rows, other);
  }

  // ---------------------------------------------------------------------------------------------
  // Child rows
  // ---------------------------------------------------------------------------------------------

  // No row is lost, added or changed but for its provider, which exists and has the old one's hostname.
  ghost predicate Follows(canon: Canon, t: Tables, rows: seq<ProviderRow>, before: map<string, Child>,
                          after: map<string, Child>)
  {
    && after.Keys == before.Keys
    && forall k :: k in before && before[k].provider in t.providers ==>
         && after[k] == before[k].(provider := after[k].provider)
         && after[k].provider in After(canon, t, rows).providers
         && HostOf(canon, After(canon, t, rows).providers, after[k].provider)
            == HostOf(canon, t.providers, before[k].provider)
  }

  lemma TableFollows(canon: Canon, t: Tables, rows: seq<ProviderRow>, children: map<string, Child>)
    requires Setting(canon, t, rows) && Refer(children, t.providers)
    ensures Follows(canon, t, rows, children, Inherit(children, Heirs(Plans(canon, rows))))
  {
    forall k | k in children
      ensures var h := HeirIn(canon, rows, children[k].provider);
              && h in After(canon, t, rows).providers
              && HostOf(canon, After(canon, t, rows).providers, h) == HostOf(canon, t.providers, children[k].provider)
    {
      HeirStays(canon, t, rows, children[k].provider);
      HostAfter(canon, t, rows, HeirIn(canon, rows, children[k].provider));
    }
  }

  /** The three child tables follow their providers. */
  lemma ChildrenFollow(canon: Canon, t: Tables, rows: seq<ProviderRow>)
    requires Setting(canon, t, rows)
    ensures var now := After(canon, t, rows);
            && Follows(canon, t, rows, t.calls, now.calls)
            && Follows(canon, t, rows, t.claims, now.claims)
            && Follows(canon, t, rows, t.outages, now.outages)
  {
    TableFollows(canon, t, rows, t.calls);
    TableFollows(canon, t, rows, t.claims);
    TableFollows(canon, t, rows, t.outages);
  }

  // ---------------------------------------------------------------------------------------------
  // Premium adjustments
  // ---------------------------------------------------------------------------------------------

  ghost predicate AdjustmentAt(canon: Canon, t: Tables, agent: string, host: string, k: string) {
    && k in t.adjustments && t.adjustments[k].agent == agent && t.adjustments[k].provider in t.providers
    && HostOf(canon, t.providers, t.adjustments[k].provider) == Some(host)
  }

  // Some adjustment of the agent is at a provider of the hostname.
  ghost predicate HasAdjustment(canon: Canon, t: Tables, agent: string, host: string) {
    exists k :: AdjustmentAt(canon, t, agent, host, k)
  }

  lemma UniqueWithoutConflict(adjustments: map<string, Adjustment>, heirs: map<string, string>)
    requires UniqueAdjustments(adjustments) && !Conflict(adjustments, heirs)
    ensures UniqueAdjustments(InheritAdjustments(adjustments, heirs))
  {
    var now := InheritAdjustments(adjustments, heirs);
    forall a, b | a in now && b in now && SameKey(now[a], now[b])
      ensures a == b
    {
      var x, y := adjustments[a], adjustments[b];
      var clash := Clash(adjustments, heirs, x, y);
      if x.provider !in heirs && y.provider !in heirs {
        assert SameKey(x, y);
      }
    }
  }

  // An adjustment that survives stays at its hostname.
  lemma SurvivorAt(canon: Canon, t: Tables, rows: seq<ProviderRow>, agent: string, host: string, k: string)
    requires Setting(canon, t, rows) && k in t.adjustments
    requires k in After(canon, t, rows).adjustments
    ensures AdjustmentAt(canon, After(canon, t, rows), agent, host, k) <==> AdjustmentAt(canon, t, agent, host, k)
  {
    var p := t.adjustments[k].provider;
    HeirStays(canon, t, rows, p);
    HostAfter(canon, t, rows, HeirIn(canon, rows, p));
  }

  lemma SomeSurvivor(canon: Canon, t: Tables, rows: seq<ProviderRow>, agent: string, host: string, k: string)
    requires Setting(canon, t, rows) && AdjustmentAt(canon, t, agent, host, k)
    ensures HasAdjustment(canon, After(canon, t, rows), agent, host)
  {
    var now := After(canon, t, rows);
    var a := t.adjustments[k];
    var heirs := Heirs(Plans(canon, rows));
    if Survives(t.adjustments, heirs, a) {
      assert k in now.adjustments;
      SurvivorAt(canon, t, rows, agent, host, k);
    } else {
      var j :| j in t.adjustments && t.adjustments[j].agent == agent && t.adjustments[j].provider == heirs[a.provider];
      HeirStays(canon, t, rows, a.provider);
      assert j in now.adjustments;
      SurvivorAt(canon, t, rows, agent, host, j);
      assert AdjustmentAt(canon, t, agent, host, j);
    }
  }

  /**
   What becomes of an adjustment: it stays unless it is at a losing provider and the winner has one for the
   agent, and it goes to the winner, unchanged otherwise. None is added.
   */
  lemma AdjustmentAfter(canon: Canon, t: Tables, rows: seq<ProviderRow>, k: string)
    requires Setting(canon, t, rows)
    ensures k in After(canon, t, rows).adjustments ==> k in t.adjustments
    ensures k in t.adjustments ==>
              var now, a := After(canon, t, rows).adjustments, t.adjustments[k];
              var heir := HeirIn(canon, rows, a.provider);
              && (k in now <==> heir == a.provider || !Holds(t.adjustments, a.agent, heir))
              && (k in now ==> now[k] == a.(provider := heir))
  {
    if k in t.adjustments {
      HeirIsAnother(canon, t, rows, t.adjustments[k].provider);
    }
  }

  /**
   After a commit there is exactly one adjustment for each agent and hostname that had any, and none
   for those that had none.
   */
  lemma OneAdjustmentPerHost(canon: Canon, t: Tables, rows: seq<ProviderRow>, agent: string, host: string)
    requires Setting(canon, t, rows) && !Conflict(t.adjustments, Heirs(Plans(canon, rows)))
    ensures HasAdjustment(canon, After(canon, t, rows), agent, host) <==> HasAdjustment(canon, t, agent, host)
    ensures var now := After(canon, t, rows);
            forall a, b ::
                  AdjustmentAt(canon, now, agent, host, a) && AdjustmentAt(canon, now, agent, host, b) ==> a == b
  {
    var now := After(canon, t, rows);
    if k :| AdjustmentAt(canon, now, agent, host, k) {
      SurvivorAt(canon, t, rows, agent, host, k);
    }
    if k :| AdjustmentAt(canon, t, agent, host, k) {
      SomeSurvivor(canon, t, rows, agent, host, k);
    }
    UniqueWithoutConflict(t.adjustments, Heirs(Plans(canon, rows)));
    forall a, b | AdjustmentAt(canon, now, agent, host, a) && AdjustmentAt(canon, now, agent, host, b)
      ensures a == b
    {
      HostsAfter(canon, t, rows, now.adjustments[a].provider, now.adjustments[b].provider);
      assert SameKey(now.adjustments[a], now.adjustments[b]);
    }
  }

  ghost predicate LosingPair(canon: Canon, t: Tables, rows: seq<ProviderRow>, agent: string, host: string, a: string,
                             b: string) {
    && AdjustmentAt(canon, t, agent, host, a) && AdjustmentAt(canon, t, agent, host, b)
    && Bucket(canon, rows, host) != []
    && var winner := WinnerOf(canon, rows, host).id;
       && t.adjustments[a].provider != winner && t.adjustments[b].provider != winner
       && !Holds(t.adjustments, agent, winner)
  }

  /**
   When the migration aborts, in terms of the stored rows: two adjustments of one agent are at two
   losing providers of one hostname, and the winner of that hostname has none for the agent.
   */
  lemma ConflictMeaning(canon: Canon, t: Tables, rows: seq<ProviderRow>)
    requires Setting(canon, t, rows)
    ensures Conflict(t.adjustments, Heirs(Plans(canon, rows)))
       <==> exists a, b, agent, host :: a != b && LosingPair(canon, t, rows, agent, host, a, b)
  {
    var heirs := Heirs(Plans(canon, rows));
    if Conflict(t.adjustments, heirs) {
      var a, b :| a in t.adjustments && b in t.adjustments && a != b
                  && Clash(t.adjustments, heirs, t.adjustments[a], t.adjustments[b]);
      var p, q := t.adjustments[a].provider, t.adjustments[b].provider;
      HeirIsWinner(canon, t, rows, p);
      HeirIsWinner(canon, t, rows, q);
      HeirStays(canon, t, rows, p);
      HeirStays(canon, t, rows, q);
      HeirIsAnother(canon, t, rows, p);
      HeirIsAnother(canon, t, rows, q);
      assert LosingPair(canon, t, rows, t.adjustments[a].agent, HostOf(canon, t.providers, p).value, a, b);
    }
    if a, b, agent, host :| a != b && LosingPair(canon, t, rows, agent, host, a, b) {
      HeirIsWinner(canon, t, rows, t.adjustments[a].provider);
      HeirIsWinner(canon, t, rows, t.adjustments[b].provider);
      assert Clash(t.adjustments, heirs, t.adjustments[a], t.adjustments[b]);
    }
  }

  // Rows with different ids and URLs make sound tables, with no children but these two adjustments.
  lemma ThreeProviders(p: ProviderRow, q: ProviderRow, r: ProviderRow, t: Tables)
    requires p.id != q.id && p.id != r.id && q.id != r.id
    requires p.baseUrl != q.baseUrl && p.baseUrl != r.baseUrl && q.baseUrl != r.baseUrl
    requires t.providers == map[p.id := p, q.id := q, r.id := r] && t.calls == t.claims == t.outages == map[]
    requires t.adjustments == map["a" := Adjustment("x", q.id, ""), "b" := Adjustment("x", r.id, "")]
    ensures Consistent(t) && IsListing(t.providers, [p, q, r])
  {
    assert UniqueUrls(t.providers) && UniqueAdjustments(t.adjustments);
  }

  // A row with the canonical base_url is the winner.
  lemma WinnerIsCanonical(canon: Canon, t: Tables, rows: seq<ProviderRow>, p: ProviderRow)
    requires Setting(canon, t, rows) && p in rows && canon(p.baseUrl) == Some(p.baseUrl)
    ensures Bucket(canon, rows, p.baseUrl) != [] && WinnerOf(canon, rows, p.baseUrl) == p
  {
    BucketMeaning(canon, rows, p.baseUrl);
    assert p in Bucket(canon, rows, p.baseUrl);
    var winner := WinnerOf(canon, rows, p.baseUrl);
    assert winner in rows && winner.baseUrl == p.baseUrl;
  }

  lemma LosersConflict(canon: Canon, t: Tables, rows: seq<ProviderRow>, p: ProviderRow, q: ProviderRow, r: ProviderRow)
    requires Setting(canon, t, rows) && p in rows && q in rows && r in rows && q.id != p.id && r.id != p.id
    requires canon(p.baseUrl) == canon(q.baseUrl) == canon(r.baseUrl) == Some(p.baseUrl)
    requires t.adjustments == map["a" := Adjustment("x", q.id, ""), "b" := Adjustment("x", r.id, "")]
    ensures Conflict(t.adjustments, Heirs(Plans(canon, rows)))
  {
    WinnerIsCanonical(canon, t, rows, p);
    assert q.id in t.providers && r.id in t.providers;
    assert LosingPair(canon, t, rows, "x", p.baseUrl, "a", "b");
    ConflictMeaning(canon, t, rows);
  }

  // The move of premium_adjustments is not free of conflicts: three providers of one hostname, the first of
  // them canonical, and an agent with an adjustment at each of the other two.
  lemma MoveCanConflict() returns (canon: Canon, t: Tables, rows: seq<ProviderRow>)
    ensures Setting(canon, t, rows) && Conflict(t.adjustments, Heirs(Plans(canon, rows)))
  {
    canon := (url: string) => Some("h");
    var p := ProviderRow("1", "", "", "h", None, 0);
    var q := ProviderRow("2", "", "", "u", None, 0);
    var r := ProviderRow("3", "", "", "v", None, 0);
    rows := [p, q, r];
    t := Tables(
      map[p.id := p, q.id := q, r.id := r], map[], map[],
      map["a" := Adjustment("x", q.id, ""), "b" := Adjustment("x", r.id, "")], map[]);
    ThreeProviders(p, q, r, t);
    LosersConflict(canon, t, rows, p, q, r);
  }

  // ---------------------------------------------------------------------------------------------
  // Idempotence
  // ---------------------------------------------------------------------------------------------

  lemma GroupIsDone(canon: Canon, t: Tables, rows: seq<ProviderRow>, rows': seq<ProviderRow>, host: string)
    requires Setting(canon, t, rows) && IsListing(After(canon, t, rows).providers, rows')
    requires Bucket(canon, rows', host) != []
    ensures NothingToDo(PlanOf(Bucket(canon, rows', host), host))
  {
    var now := After(canon, t, rows).providers;
    var bucket := Bucket(canon, rows', host);
    var plan := PlanOf(bucket, host);
    BucketMeaning(canon, rows', host);
    assert plan.winner in rows' && plan.winner.id in now;
    HostAfter(canon, t, rows, plan.winner.id);
    ParsedProviderAfter(canon, t, rows, plan.winner.id);
    forall q | q in bucket
      ensures q.id == plan.winner.id
    {
      assert q in rows' && q.id in now;
      HostsAfter(canon, t, rows, plan.winner.id, q.id);
    }
    HasMember(plan.losers);
  }

  /** Planning again on the committed tables, however their rows are listed, finds nothing to do. */
  lemma NothingLeftToDo(canon: Canon, t: Tables, rows: seq<ProviderRow>, rows': seq<ProviderRow>)
    requires Setting(canon, t, rows) && IsListing(After(canon, t, rows).providers, rows')
    ensures Plans(canon, rows') == []
  {
    PlansMeaning(canon, rows');
    forall host | Bucket(canon, rows', host) != []
      ensures NothingToDo(PlanOf(Bucket(canon, rows', host), host))
    {
      GroupIsDone(canon, t, rows, rows', host);
    }
    HasMember(Plans(canon, rows'));
  }

  // ---------------------------------------------------------------------------------------------
  // The counters
  // ---------------------------------------------------------------------------------------------

  ghost function MovedChildren(before: map<string, Child>, after: map<string, Child>): set<string> {
    set k | k in before && k in after && after[k].provider != before[k].provider
  }

  ghost function MovedAdjustments(t: Tables, now: Tables): set<string> {
    set k | k in t.adjustments && k in now.adjustments && now.adjustments[k].provider != t.adjustments[k].provider
  }

  ghost function RewrittenUrls(t: Tables, now: Tables): set<string> {
    set id | id in t.providers && id in now.providers && now.providers[id].baseUrl != t.providers[id].baseUrl
  }

  lemma ChildCounter(canon: Canon, t: Tables, rows: seq<ProviderRow>, children: map<string, Child>)
    requires Setting(canon, t, rows) && Refer(children, t.providers)
    ensures var heirs := Heirs(Plans(canon, rows));
            |MovedChildren(children, Inherit(children, heirs))| == |ChildrenOf(children, heirs.Keys)|
  {
    var heirs := Heirs(Plans(canon, rows));
    forall k | k in children
      ensures children[k].provider in heirs <==> Heir(heirs, children[k].provider) != children[k].provider
    {
      HeirIsAnother(canon, t, rows, children[k].provider);
    }
    assert MovedChildren(children, Inherit(children, heirs)) == ChildrenOf(children, heirs.Keys);
  }

  lemma GoneCount(before: map<string, Adjustment>, after: map<string, Adjustment>)
    requires after.Keys <= before.Keys
    ensures |before.Keys - after.Keys| == |before| - |after|
  {
    assert (before.Keys - after.Keys) + after.Keys == before.Keys;
    assert |before| == |before.Keys| && |after| == |after.Keys|;
  }

  lemma MovedOrGone(adjustments: map<string, Adjustment>, heirs: map<string, string>)
    requires forall k :: k in adjustments && adjustments[k].provider in heirs ==>
               heirs[adjustments[k].provider] != adjustments[k].provider
    ensures var now := InheritAdjustments(adjustments, heirs);
            var moved := set k | k in adjustments && k in now && now[k].provider != adjustments[k].provider;
            && now.Keys <= adjustments.Keys
            && moved + (adjustments.Keys - now.Keys) == HeldBy(adjustments, heirs.Keys)
  {
  }

  lemma AdjustmentCounter(canon: Canon, t: Tables, rows: seq<ProviderRow>)
    requires Setting(canon, t, rows)
    ensures var now, heirs := After(canon, t, rows), Heirs(Plans(canon, rows));
            |MovedAdjustments(t, now)| + |t.adjustments| - |now.adjustments| == |HeldBy(t.adjustments, heirs.Keys)|
  {
    var now, heirs := After(canon, t, rows), Heirs(Plans(canon, rows));
    forall k | k in t.adjustments && t.adjustments[k].provider in heirs
      ensures heirs[t.adjustments[k].provider] != t.adjustments[k].provider
    {
      HeirIsAnother(canon, t, rows, t.adjustments[k].provider);
    }
    MovedOrGone(t.adjustments, heirs);
    GoneCount(t.adjustments, now.adjustments);
    var moved, gone := MovedAdjustments(t, now), t.adjustments.Keys - now.adjustments.Keys;
    assert moved !! gone && moved + gone == HeldBy(t.adjustments, heirs.Keys);
  }

  ghost function ChangingWinners(plans: seq<GroupPlan>): set<string> {
    set p | p in plans && p.winner.baseUrl != p.canonical :: p.winner.id
  }

  lemma {:induction false} RewriteCountIsSize(plans: seq<GroupPlan>)
    requires forall i, j :: 0 <= i < j < |plans| ==> plans[i].winner.id != plans[j].winner.id
    ensures RewriteCount(plans) == |ChangingWinners(plans)|
  {
    if plans != [] {
      var n := |plans| - 1;
      RewriteCountIsSize(plans[..n]);
      assert plans == plans[..n] + [plans[n]];
      var before, last := ChangingWinners(plans[..n]), plans[n];
      assert last.winner.id !in before;
      if last.winner.baseUrl != last.canonical {
        assert ChangingWinners(plans) == before + {last.winner.id};
      } else {
        assert ChangingWinners(plans) == before;
      }
    }
  }

  lemma WinnersDiffer(canon: Canon, t: Tables, rows: seq<ProviderRow>)
    requires Setting(canon, t, rows)
    ensures var plans := Plans(canon, rows);
            forall i, j :: 0 <= i < j < |plans| ==> plans[i].winner.id != plans[j].winner.id
  {
    var plans := Plans(canon, rows);
    forall i: nat, j: nat | i < j < |plans|
      ensures plans[i].winner.id != plans[j].winner.id
    {
      TwoPlansApart(canon, t, rows, j, i);
    }
  }

  // A provider's base_url changes if it is the winner of a plan and not canonical ...
  lemma ChangingWinnerRewritten(canon: Canon, t: Tables, rows: seq<ProviderRow>, p: GroupPlan)
    requires Setting(canon, t, rows) && p in Plans(canon, rows) && p.winner.baseUrl != p.canonical
    ensures p.winner.id in RewrittenUrls(t, After(canon, t, rows))
  {
    PlansMeaning(canon, rows);
    PlanMembers(canon, rows, p);
    WinnerStays(canon, t, rows, p.canonical);
    var id := p.winner.id;
    HeirIsAnother(canon, t, rows, id);
    ParsedProviderAfter(canon, t, rows, id);
  }

  lemma RewrittenHasPlan(canon: Canon, t: Tables, rows: seq<ProviderRow>, id: string, host: string)
    requires Setting(canon, t, rows) && id in t.providers && HeirIn(canon, rows, id) == id
    requires HostOf(canon, t.providers, id) == Some(host) && t.providers[id].baseUrl != host
    ensures id in ChangingWinners(Plans(canon, rows))
  {
    HeirIsWinner(canon, t, rows, id);
    WinnerStays(canon, t, rows, host);
    assert t.providers[id] in rows;
    PlansMeaning(canon, rows);
    if p :| p in Plans(canon, rows) && p.canonical == host {
      PlannedHost(canon, t, rows, id, p);
      assert p.winner == t.providers[id];
    } else {
      UnplannedIsAlone(canon, rows, t.providers[id], host);
    }
  }

  // ... and only then.
  lemma RewrittenIsChangingWinner(canon: Canon, t: Tables, rows: seq<ProviderRow>, id: string)
    requires Setting(canon, t, rows) && id in RewrittenUrls(t, After(canon, t, rows))
    ensures id in ChangingWinners(Plans(canon, rows))
  {
    StaysAsItself(canon, t, rows, id);
    if HostOf(canon, t.providers, id).None? {
      UnparsedProviderAfter(canon, t, rows, id);
    } else {
      ParsedProviderAfter(canon, t, rows, id);
      RewrittenHasPlan(canon, t, rows, id, HostOf(canon, t.providers, id).value);
    }
  }

  lemma UrlCounter(canon: Canon, t: Tables, rows: seq<ProviderRow>)
    requires Setting(canon, t, rows)
    ensures |RewrittenUrls(t, After(canon, t, rows))| == RewriteCount(Plans(canon, rows))
  {
    WinnersDiffer(canon, t, rows);
    RewriteCountIsSize(Plans(canon, rows));
    forall id
      ensures id in RewrittenUrls(t, After(canon, t, rows)) <==> id in ChangingWinners(Plans(canon, rows))
    {
      if p :| p in Plans(canon, rows) && p.winner.baseUrl != p.canonical && p.winner.id == id {
        ChangingWinnerRewritten(canon, t, rows, p);
      }
      if id in RewrittenUrls(t, After(canon, t, rows)) {
        RewrittenIsChangingWinner(canon, t, rows, id);
      }
    }
    assert RewrittenUrls(t, After(canon, t, rows)) == ChangingWinners(Plans(canon, rows));
  }

  /**
   What the summary says: the rows of each table that have changed their provider, the adjustments and the
   providers that are gone, and the providers that have got another base_url.
   */
  lemma CountersMeaning(canon: Canon, t: Tables, rows: seq<ProviderRow>, s: Summary)
    requires Setting(canon, t, rows) && Tallied(t, Plans(canon, rows), After(canon, t, rows), s)
    ensures var now := After(canon, t, rows);
            && s.calls == |MovedChildren(t.calls, now.calls)|
            && s.claims == |MovedChildren(t.claims, now.claims)|
            && s.outages == |MovedChildren(t.outages, now.outages)|
            && s.adjustmentsMoved == |MovedAdjustments(t, now)|
            && s.adjustmentsDropped == |t.adjustments| - |now.adjustments|
            && s.mergedProviders == |t.providers| - |now.providers|
            && s.rewrittenBaseUrls == |RewrittenUrls(t, now)|
  {
    ChildCounter(canon, t, rows, t.calls);
    ChildCounter(canon, t, rows, t.claims);
    ChildCounter(canon, t, rows, t.outages);
    AdjustmentCounter(canon, t, rows);
    UrlCounter(canon, t, rows);
  }
}
