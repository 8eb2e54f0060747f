/**
 Planning the hostname migration: the provider rows are grouped by canonical hostname, and each group
 gets a winner, its losers and the wallet to keep. Groups with nothing to do get no plan.
 */
module MergePlan {

  import opened Wrappers

  datatype ProviderRow = ProviderRow(
    id: string, name: string, category: string, baseUrl: string, wallet: Option<string>, createdAt: int)

  datatype GroupPlan = GroupPlan(
    canonical: string, winner: ProviderRow, losers: seq<ProviderRow>, walletToSet: Option<string>)

  // canonicalHostname; None when it throws.
  type Canon = string -> Option<string>

  // A canonical hostname is its own canonical hostname.
  ghost predicate Lawful(canon: Canon) {
    forall s: string :: canon(s).Some? ==> canon(canon(s).value) == canon(s)
  }

  // The rows of one hostname, in the order of the listing.
  function Bucket(canon: Canon, rows: seq<ProviderRow>, host: string): seq<ProviderRow> {
    if rows == [] then []
    else
      var n := |rows| - 1;
      Bucket(canon, rows[..n], host) + if canon(rows[n].baseUrl) == Some(host) then [rows[n]] else []
  }

  // The hostnames, in the order of their first row.
  function Hosts(canon: Canon, rows: seq<ProviderRow>): seq<string> {
    if rows == [] then []
    else
      var n := |rows| - 1;
      var before := Hosts(canon, rows[..n]);
      match canon(rows[n].baseUrl)
      case None => before
      case Some(host) => if host in before then before else before + [host]
  }

  function FindByUrl(rows: seq<ProviderRow>, url: string): (found: Option<ProviderRow>)
    ensures found.Some? ==> found.value in rows && found.value.baseUrl == url
    ensures found.None? ==> forall r :: r in rows ==> r.baseUrl != url
  {
    if rows == [] then None
    else if rows[0].baseUrl == url then Some(rows[0])
    else FindByUrl(rows[1..], url)
  }

  // The first row of a stable sort by creation time.
  function Oldest(rows: seq<ProviderRow>): (oldest: ProviderRow)
    requires rows != []
    ensures oldest in rows && forall r :: r in rows ==> oldest.createdAt <= r.createdAt
  {
    if |rows| == 1 then rows[0]
    else
      var rest := Oldest(rows[1..]);
      if rows[0].createdAt <= rest.createdAt then rows[0] else rest
  }

  function Winner(bucket: seq<ProviderRow>, host: string): (winner: ProviderRow)
    requires bucket != []
    ensures winner in bucket
    ensures (exists r :: r in bucket && r.baseUrl == host) ==> winner.baseUrl == host
    ensures winner.baseUrl != host ==> forall r :: r in bucket ==> winner.createdAt <= r.createdAt
  {
    match FindByUrl(bucket, host)
    case Some(row) => row
    case None => Oldest(bucket)
  }

  function Without(rows: seq<ProviderRow>, id: string): (rest: seq<ProviderRow>)
    ensures forall r :: r in rest <==> r in rows && r.id != id
  {
    if rows == [] then []
    else (if rows[0].id != id then [rows[0]] else []) + Without(rows[1..], id)
  }

  function FirstWallet(rows: seq<ProviderRow>): (wallet: Option<string>)
    ensures wallet.None? <==> forall r :: r in rows ==> r.wallet.None?
    ensures wallet.Some? ==> exists r :: r in rows && r.wallet == wallet
  {
    if rows == [] then None
    else if rows[0].wallet.Some? then rows[0].wallet
    else FirstWallet(rows[1..])
  }

  function Coalesce(a: Option<string>, b: Option<string>): Option<string> {
    if a.Some? then a else b
  }

  function PlanOf(bucket: seq<ProviderRow>, host: string): GroupPlan
    requires bucket != []
  {
    var winner := Winner(bucket, host);
    var losers := Without(bucket, winner.id);
    GroupPlan(host, winner, losers, Coalesce(winner.wallet, FirstWallet(losers)))
  }

  predicate NothingToDo(plan: GroupPlan) {
    plan.losers == [] && plan.winner.baseUrl == plan.canonical
  }

  function PlansFor(canon: Canon, rows: seq<ProviderRow>, hosts: seq<string>): seq<GroupPlan>
    requires forall h :: h in hosts ==> Bucket(canon, rows, h) != []
  {
    if hosts == [] then []
    else
      var n := |hosts| - 1;
      var plan := PlanOf(Bucket(canon, rows, hosts[n]), hosts[n]);
      PlansFor(canon, rows, hosts[..n]) + if NothingToDo(plan) then [] else [plan]
  }

  lemma {:induction false} HostsMeaning(canon: Canon, rows: seq<ProviderRow>)
    ensures forall h :: h in Hosts(canon, rows) <==> exists r :: r in rows && canon(r.baseUrl) == Some(h)
    ensures forall i, j :: 0 <= i < j < |Hosts(canon, rows)| ==> Hosts(canon, rows)[i] != Hosts(canon, rows)[j]
  {
    if rows != [] {
      var n := |rows| - 1;
      HostsMeaning(canon, rows[..n]);
      assert rows == rows[..n] + [rows[n]];
    }
  }

  // ---------------------------------------------------------------------------------------------
  // Buckets and hosts
  // ---------------------------------------------------------------------------------------------

  lemma {:induction false} BucketMeaning(canon: Canon, rows: seq<ProviderRow>, host: string)
    ensures forall r :: r in Bucket(canon, rows, host) <==> r in rows && canon(r.baseUrl) == Some(host)
  {
    if rows != [] {
      var n := |rows| - 1;
      BucketMeaning(canon, rows[..n], host);
      assert rows == rows[..n] + [rows[n]];
    }
  }

  lemma HostsHaveBuckets(canon: Canon, rows: seq<ProviderRow>)
    ensures forall h :: h in Hosts(canon, rows) ==> Bucket(canon, rows, h) != []
  {
    HostsMeaning(canon, rows);
    forall h | h in Hosts(canon, rows)
      ensures Bucket(canon, rows, h) != []
    {
      BucketMeaning(canon, rows, h);
      var r :| r in rows && canon(r.baseUrl) == Some(h);
      assert r in Bucket(canon, rows, h);
    }
  }

  ghost function Plans(canon: Canon, rows: seq<ProviderRow>): seq<GroupPlan> {
    HostsHaveBuckets(canon, rows);
    PlansFor(canon, rows, Hosts(canon, rows))
  }

  // ---------------------------------------------------------------------------------------------
  // planGroups
  // ---------------------------------------------------------------------------------------------

  lemma BucketHasHost(canon: Canon, rows: seq<ProviderRow>, host: string)
    ensures Bucket(canon, rows, host) == [] || host in Hosts(canon, rows)
  {
    HostsMeaning(canon, rows);
    BucketMeaning(canon, rows, host);
    if Bucket(canon, rows, host) != [] {
      assert Bucket(canon, rows, host)[0] in rows;
    }
  }

  lemma GroupStep(canon: Canon, rows: seq<ProviderRow>, i: nat)
    requires i < |rows|
    ensures forall h :: Bucket(canon, rows[..i + 1], h)
                     == Bucket(canon, rows[..i], h) + if canon(rows[i].baseUrl) == Some(h) then [rows[i]] else []
    ensures Hosts(canon, rows[..i + 1])
         == Hosts(canon, rows[..i])
            + match canon(rows[i].baseUrl)
              case None => []
              case Some(h) => if h in Hosts(canon, rows[..i]) then [] else [h]
  {
    assert rows[..i + 1][..i] == rows[..i];
  }

  // The first loop. byCanonical is a Map, which iterates in insertion order: "order" lists its keys in
  // that order.
  method GroupByHost(canon: Canon, rows: seq<ProviderRow>)
    returns (byCanonical: map<string, seq<ProviderRow>>, order: seq<string>)
    ensures order == Hosts(canon, rows)
    ensures forall h :: h in order ==> h in byCanonical && byCanonical[h] == Bucket(canon, rows, h) != []
  {
    byCanonical, order := map[], [];
    for i := 0 to |rows|
      invariant order == Hosts(canon, rows[..i])
      invariant forall h :: h in byCanonical <==> h in order
      invariant forall h :: h in order ==> byCanonical[h] == Bucket(canon, rows[..i], h)
    {
      var row := rows[i];
      GroupStep(canon, rows, i);
      var canonical := canon(row.baseUrl);
      if canonical.Some? {
        var host := canonical.value;
        if host !in byCanonical {
          BucketHasHost(canon, rows[..i], host);
          order := order + [host];
        }
        var bucket := if host in byCanonical then byCanonical[host] else [];
        byCanonical := byCanonical[host := bucket + [row]];
      }
    }
    assert rows[..|rows|] == rows;
    HostsHaveBuckets(canon, rows);
  }

  // One round of the second loop, for a hostname and its rows.
  method PlanGroup(bucket: seq<ProviderRow>, host: string) returns (plan: Option<GroupPlan>)
    requires bucket != []
    ensures plan == if NothingToDo(PlanOf(bucket, host)) then None else Some(PlanOf(bucket, host))
  {
    var alreadyCanonical := FindByUrl(bucket, host);
    var winner := if alreadyCanonical.Some? then alreadyCanonical.value else Oldest(bucket);
    var losers := Without(bucket, winner.id);
    if losers == [] && winner.baseUrl == host { return None; }
    var walletToSet := if winner.wallet.Some? then winner.wallet else FirstWallet(losers);
    plan := Some(GroupPlan(host, winner, losers, walletToSet));
  }

  lemma PlansForStep(canon: Canon, rows: seq<ProviderRow>, hosts: seq<string>, i: nat)
    requires (forall h :: h in hosts ==> Bucket(canon, rows, h) != []) && i < |hosts|
    ensures (forall h :: h in hosts[..i] ==> h in hosts) && (forall h :: h in hosts[..i + 1] ==> h in hosts)
    ensures PlansFor(canon, rows, hosts[..i + 1])
         == PlansFor(canon, rows, hosts[..i])
            + var plan := PlanOf(Bucket(canon, rows, hosts[i]), hosts[i]); if NothingToDo(plan) then [] else [plan]
  {
    assert hosts[..i + 1][..i] == hosts[..i];
  }

  method PlanGroups(canon: Canon, rows: seq<ProviderRow>) returns (plans: seq<GroupPlan>)
    ensures plans == Plans(canon, rows)
  {
    var byCanonical, order := GroupByHost(canon, rows);
    plans := [];
    for i := 0 to |order|
      invariant plans == PlansFor(canon, rows, order[..i])
    {
      PlansForStep(canon, rows, order, i);
      var plan := PlanGroup(byCanonical[order[i]], order[i]);
      if plan.Some? {
        plans := plans + [plan.value];
      }
    }
    assert order[..|order|] == order;
  }

  // ---------------------------------------------------------------------------------------------
  // What the plans say
  // ---------------------------------------------------------------------------------------------

  ghost predicate DistinctIds(rows: seq<ProviderRow>) {
    forall r, q :: r in rows && q in rows && r.id == q.id ==> r == q
  }

  // The row that stands for a hostname after the migration.
  ghost function WinnerOf(canon: Canon, rows: seq<ProviderRow>, host: string): (winner: ProviderRow)
    requires Bucket(canon, rows, host) != []
  {
    Winner(Bucket(canon, rows, host), host)
  }

  ghost predicate PlanFits(canon: Canon, rows: seq<ProviderRow>, plan: GroupPlan) {
    && Bucket(canon, rows, plan.canonical) != []
    && plan == PlanOf(Bucket(canon, rows, plan.canonical), plan.canonical)
    && !NothingToDo(plan)
  }

  lemma {:induction false} PlansForFit(canon: Canon, rows: seq<ProviderRow>, hosts: seq<string>)
    requires forall h :: h in hosts ==> Bucket(canon, rows, h) != []
    ensures forall p :: p in PlansFor(canon, rows, hosts) ==> PlanFits(canon, rows, p) && p.canonical in hosts
  {
    if hosts != [] {
      var n := |hosts| - 1;
      PlansForFit(canon, rows, hosts[..n]);
    }
  }

  lemma {:induction false} PlansForComplete(canon: Canon, rows: seq<ProviderRow>, hosts: seq<string>, k: nat)
    requires (forall h :: h in hosts ==> Bucket(canon, rows, h) != []) && k < |hosts|
    requires !NothingToDo(PlanOf(Bucket(canon, rows, hosts[k]), hosts[k]))
    ensures PlanOf(Bucket(canon, rows, hosts[k]), hosts[k]) in PlansFor(canon, rows, hosts)
  {
    if k < |hosts| - 1 {
      PlansForComplete(canon, rows, hosts[..|hosts| - 1], k);
    }
  }

  lemma {:induction false} PlansForDiffer(canon: Canon, rows: seq<ProviderRow>, hosts: seq<string>, i: nat, j: nat)
    requires forall h :: h in hosts ==> Bucket(canon, rows, h) != []
    requires forall a, b :: 0 <= a < b < |hosts| ==> hosts[a] != hosts[b]
    requires i < j < |PlansFor(canon, rows, hosts)|
    ensures PlansFor(canon, rows, hosts)[i].canonical != PlansFor(canon, rows, hosts)[j].canonical
  {
    var n := |hosts| - 1;
    var before := PlansFor(canon, rows, hosts[..n]);
    if j < |before| {
      PlansForDiffer(canon, rows, hosts[..n], i, j);
    } else {
      PlansForFit(canon, rows, hosts[..n]);
      assert before[i] in before && hosts[n] !in hosts[..n];
    }
  }

  /** There is exactly one plan for each hostname of which something has to change, and no other. */
  lemma PlansMeaning(canon: Canon, rows: seq<ProviderRow>)
    ensures forall p :: p in Plans(canon, rows) <==> PlanFits(canon, rows, p)
    ensures var plans := Plans(canon, rows);
            forall i, j :: 0 <= i < j < |plans| ==> plans[i].canonical != plans[j].canonical
  {
    var hosts, plans := Hosts(canon, rows), Plans(canon, rows);
    HostsHaveBuckets(canon, rows);
    HostsMeaning(canon, rows);
    assert plans == PlansFor(canon, rows, hosts);
    forall p
      ensures p in plans <==> PlanFits(canon, rows, p)
    {
      PlansForFit(canon, rows, hosts);
      if PlanFits(canon, rows, p) {
        BucketHasHost(canon, rows, p.canonical);
        var k: nat :| k < |hosts| && hosts[k] == p.canonical;
        PlansForComplete(canon, rows, hosts, k);
      }
    }
    forall i, j | 0 <= i < j < |plans|
      ensures plans[i].canonical != plans[j].canonical
    {
      PlansForDiffer(canon, rows, hosts, i, j);
    }
  }

  ghost function LoserIds(plan: GroupPlan): set<string> {
    set l | l in plan.losers :: l.id
  }

  // The rows of a plan are those of its hostname: the winner, and the losers, which are all others.
  lemma PlanMembers(canon: Canon, rows: seq<ProviderRow>, plan: GroupPlan)
    requires DistinctIds(rows) && PlanFits(canon, rows, plan)
    ensures plan.winner in rows && canon(plan.winner.baseUrl) == Some(plan.canonical)
    ensures plan.winner == WinnerOf(canon, rows, plan.canonical) && plan.winner.id !in LoserIds(plan)
    ensures forall r :: r in plan.losers <==>
              r in rows && canon(r.baseUrl) == Some(plan.canonical) && r != plan.winner
  {
    BucketMeaning(canon, rows, plan.canonical);
  }

  // A row of a hostname without a plan is alone and already canonical.
  lemma UnplannedIsAlone(canon: Canon, rows: seq<ProviderRow>, r: ProviderRow, host: string)
    requires DistinctIds(rows) && r in rows && canon(r.baseUrl) == Some(host)
    requires forall p :: p in Plans(canon, rows) ==> p.canonical != host
    ensures Bucket(canon, rows, host) != [] && WinnerOf(canon, rows, host) == r && r.baseUrl == host
    ensures forall q :: q in rows && canon(q.baseUrl) == Some(host) ==> q == r
  {
    BucketMeaning(canon, rows, host);
    PlansMeaning(canon, rows);
    var bucket := Bucket(canon, rows, host);
    assert r in bucket;
    var plan := PlanOf(bucket, host);
    assert !PlanFits(canon, rows, plan);
    assert NothingToDo(plan);
    forall q | q in bucket
      ensures q == plan.winner
    {
      assert q !in plan.losers;
    }
  }

  // ---------------------------------------------------------------------------------------------
  // Winner and wallet, in terms of the listing
  // ---------------------------------------------------------------------------------------------

  ghost predicate OfHost(canon: Canon, rows: seq<ProviderRow>, host: string, i: nat) {
    i < |rows| && canon(rows[i].baseUrl) == Some(host)
  }

  // Row i is the first row of the hostname that has a wallet.
  ghost predicate HasFirstWallet(canon: Canon, rows: seq<ProviderRow>, host: string, i: nat) {
    && OfHost(canon, rows, host, i) && rows[i].wallet.Some?
    && forall j: nat :: j < i && OfHost(canon, rows, host, j) ==> rows[j].wallet.None?
  }

  // Row i is the first one of those of the hostname that were created first.
  ghost predicate IsOldest(canon: Canon, rows: seq<ProviderRow>, host: string, i: nat) {
    && OfHost(canon, rows, host, i)
    && (forall j: nat :: OfHost(canon, rows, host, j) ==> rows[i].createdAt <= rows[j].createdAt)
    && forall j: nat :: j < i && OfHost(canon, rows, host, j) ==> rows[i].createdAt < rows[j].createdAt
  }

  lemma {:induction false} FirstWalletAppend(a: seq<ProviderRow>, r: ProviderRow)
    ensures FirstWallet(a + [r]) == if FirstWallet(a).Some? then FirstWallet(a) else r.wallet
  {
    if a == [] {
      assert [r][1..] == [] && FirstWallet([r][1..]) == None;
    } else {
      assert (a + [r])[1..] == a[1..] + [r];
      FirstWalletAppend(a[1..], r);
    }
  }

  lemma {:induction false} OldestAppend(a: seq<ProviderRow>, r: ProviderRow)
    requires a != []
    ensures Oldest(a + [r]) == if Oldest(a).createdAt <= r.createdAt then Oldest(a) else r
  {
    assert (a + [r])[1..] == a[1..] + [r];
    if 1 < |a| {
      OldestAppend(a[1..], r);
    }
  }

  // The rows without one that has no wallet have the same first wallet.
  lemma {:induction false} FirstWalletWithout(rows: seq<ProviderRow>, id: string)
    requires forall r :: r in rows && r.id == id ==> r.wallet.None?
    ensures FirstWallet(Without(rows, id)) == FirstWallet(rows)
  {
    if rows != [] {
      var first, rest := rows[0], rows[1..];
      assert first in rows && forall r :: r in rest ==> r in rows;
      FirstWalletWithout(rest, id);
      if first.id != id {
        assert Without(rows, id) == [first] + Without(rest, id);
        assert ([first] + Without(rest, id))[1..] == Without(rest, id);
      } else {
        assert Without(rows, id) == [] + Without(rest, id) == Without(rest, id);
      }
    }
  }

  lemma BucketStep(canon: Canon, rows: seq<ProviderRow>, host: string)
    requires rows != []
    ensures var n := |rows| - 1;
            Bucket(canon, rows, host)
            == if OfHost(canon, rows, host, n) then Bucket(canon, rows[..n], host) + [rows[n]]
               else Bucket(canon, rows[..n], host)
  {
    var before := Bucket(canon, rows[..|rows| - 1], host);
    assert before + [] == before;
  }

  lemma InBucket(canon: Canon, rows: seq<ProviderRow>, host: string, i: nat)
    requires OfHost(canon, rows, host, i)
    ensures rows[i] in Bucket(canon, rows, host)
  {
    BucketMeaning(canon, rows, host);
    assert rows[i] in rows;
  }

  // One more row does not change which of the others are the hostname's.
  lemma OfHostBefore(canon: Canon, rows: seq<ProviderRow>, host: string, n: nat, j: nat)
    requires j < n <= |rows|
    ensures OfHost(canon, rows[..n], host, j) <==> OfHost(canon, rows, host, j)
    ensures rows[..n][j] == rows[j]
  {
  }

  lemma {:induction false} BucketFirstWallet(canon: Canon, rows: seq<ProviderRow>, host: string) returns (i: nat)
    ensures var wallet := FirstWallet(Bucket(canon, rows, host));
            wallet.Some? ==> HasFirstWallet(canon, rows, host, i) && wallet == rows[i].wallet
  {
    i := 0;
    if rows != [] {
      var n := |rows| - 1;
      var before := Bucket(canon, rows[..n], host);
      BucketStep(canon, rows, host);
      FirstWalletAppend(before, rows[n]);
      i := BucketFirstWallet(canon, rows[..n], host);
      forall j: nat | j < n
        ensures OfHost(canon, rows[..n], host, j) <==> OfHost(canon, rows, host, j)
        ensures OfHost(canon, rows, host, j) ==> rows[j] in before
      {
        OfHostBefore(canon, rows, host, n, j);
        if OfHost(canon, rows, host, j) {
          InBucket(canon, rows[..n], host, j);
        }
      }
      if FirstWallet(before).None? {
        i := n;
      }
    }
  }

  // The oldest row, when one more row is listed.
  lemma OldestStep(canon: Canon, rows: seq<ProviderRow>, host: string, n: nat, i: nat)
    requires n + 1 == |rows| && IsOldest(canon, rows[..n], host, i)
    ensures i < n && rows[..n][i] == rows[i]
    ensures if OfHost(canon, rows, host, n) && rows[n].createdAt < rows[i].createdAt
            then IsOldest(canon, rows, host, n) else IsOldest(canon, rows, host, i)
  {
    forall j: nat | j < n
      ensures OfHost(canon, rows[..n], host, j) <==> OfHost(canon, rows, host, j)
      ensures rows[..n][j] == rows[j]
    {
      OfHostBefore(canon, rows, host, n, j);
    }
  }

  lemma FirstOfHost(canon: Canon, rows: seq<ProviderRow>, host: string, n: nat)
    requires n + 1 == |rows| && OfHost(canon, rows, host, n) && Bucket(canon, rows[..n], host) == []
    ensures IsOldest(canon, rows, host, n)
  {
    forall j: nat | j < n && OfHost(canon, rows, host, j)
      ensures false
    {
      OfHostBefore(canon, rows, host, n, j);
      InBucket(canon, rows[..n], host, j);
    }
  }

  lemma {:induction false} BucketOldest(canon: Canon, rows: seq<ProviderRow>, host: string) returns (i: nat)
    requires Bucket(canon, rows, host) != []
    ensures IsOldest(canon, rows, host, i) && Oldest(Bucket(canon, rows, host)) == rows[i]
  {
    var n := |rows| - 1;
    var before := Bucket(canon, rows[..n], host);
    BucketStep(canon, rows, host);
    if before == [] {
      FirstOfHost(canon, rows, host, n);
      assert [] + [rows[n]] == [rows[n]];
      i := n;
    } else {
      i := BucketOldest(canon, rows[..n], host);
      OldestStep(canon, rows, host, n, i);
      OldestAppend(before, rows[n]);
      if OfHost(canon, rows, host, n) && rows[n].createdAt < rows[i].createdAt {
        i := n;
      }
    }
  }

  /**
   The winner, in terms of the listing: a row whose base_url is the hostname already, and if there is none,
   the first of the oldest rows of the hostname.
   */
  lemma WinnerMeaning(canon: Canon, rows: seq<ProviderRow>, host: string)
    requires Bucket(canon, rows, host) != []
    ensures var winner := WinnerOf(canon, rows, host);
            && winner in rows && canon(winner.baseUrl) == Some(host)
            && if exists r :: r in rows && canon(r.baseUrl) == Some(host) && r.baseUrl == host
               then winner.baseUrl == host
               else exists i: nat :: IsOldest(canon, rows, host, i) && winner == rows[i]
  {
    var bucket := Bucket(canon, rows, host);
    BucketMeaning(canon, rows, host);
    if r :| r in rows && canon(r.baseUrl) == Some(host) && r.baseUrl == host {
      assert r in bucket;
    } else {
      assert FindByUrl(bucket, host) == None;
      var i := BucketOldest(canon, rows, host);
    }
  }

  /** The wallet of a group: the winner's own, and if it has none, the first one of the hostname. */
  lemma PlanWallet(canon: Canon, rows: seq<ProviderRow>, host: string)
    requires DistinctIds(rows) && Bucket(canon, rows, host) != []
    ensures var plan := PlanOf(Bucket(canon, rows, host), host);
            if plan.winner.wallet.Some? then plan.walletToSet == plan.winner.wallet
            else if plan.walletToSet.Some?
            then exists i: nat :: HasFirstWallet(canon, rows, host, i) && plan.walletToSet == rows[i].wallet
            else forall i: nat :: OfHost(canon, rows, host, i) ==> rows[i].wallet.None?
  {
    var bucket := Bucket(canon, rows, host);
    var plan := PlanOf(bucket, host);
    BucketMeaning(canon, rows, host);
    if plan.winner.wallet.None? {
      FirstWalletWithout(bucket, plan.winner.id);
      var i := BucketFirstWallet(canon, rows, host);
      forall j: nat | OfHost(canon, rows, host, j)
        ensures rows[j] in bucket
      {
        InBucket(canon, rows, host, j);
      }
    }
  }
}
