/**
 The account list of settle_batch, which the program reads by position alone: a prefix of five
 accounts, then for each event five accounts and one for each fee recipient of its endpoint. A reader
 that knows the endpoints' recipient counts gets back every event's accounts.
 */
module SettleAccounts {

  import opened Wrappers
  import opened AccountLayouts

  datatype AccountMeta = AccountMeta(pubkey: Pubkey, isSigner: bool, isWritable: bool)

  // The accounts of a settlement event; its other fields travel in the data buffer.
  datatype SettlementEvent = SettlementEvent(
    agentAta: Pubkey, endpointConfig: Pubkey, coveragePool: Pubkey, poolVault: Pubkey, feeRecipientAtas: seq<Pubkey>)

  // The programs that every batch names.
  datatype Programs = Programs(token: Pubkey, system: Pubkey)

  datatype AlignError = NotAligned(events: nat, callRecords: nat)

  const PREFIX_LEN := 5
  const EVENT_LEN := 5

  function Writable(k: Pubkey): AccountMeta {
    AccountMeta(k, false, true)
  }

  function ReadOnly(k: Pubkey): AccountMeta {
    AccountMeta(k, false, false)
  }

  ghost function Prefix(settler: Pubkey, authority: Pubkey, programs: Programs, config: Pubkey): (p: seq<AccountMeta>)
    ensures |p| == PREFIX_LEN
  {
    [AccountMeta(settler, true, true), ReadOnly(authority), ReadOnly(programs.token),
     ReadOnly(programs.system), ReadOnly(config)]
  }

  ghost function AllWritable(keys: seq<Pubkey>): (metas: seq<AccountMeta>)
    ensures |metas| == |keys| && forall i :: 0 <= i < |keys| ==> metas[i] == Writable(keys[i])
  {
    seq(|keys|, i requires 0 <= i < |keys| => Writable(keys[i]))
  }

  ghost function EventAccounts(e: SettlementEvent, callRecord: Pubkey): (metas: seq<AccountMeta>)
    ensures |metas| == EVENT_LEN + |e.feeRecipientAtas|
  {
    AllWritable([callRecord, e.coveragePool, e.poolVault, e.endpointConfig, e.agentAta] + e.feeRecipientAtas)
  }

  ghost function AllEventAccounts(events: seq<SettlementEvent>, callRecords: seq<Pubkey>): seq<AccountMeta>
    requires |events| == |callRecords|
  {
    if events == [] then []
    else EventAccounts(events[0], callRecords[0]) + AllEventAccounts(events[1..], callRecords[1..])
  }

  lemma {:induction false} AllEventAccountsAppend(events: seq<SettlementEvent>, callRecords: seq<Pubkey>,
                                                  e: SettlementEvent, c: Pubkey)
    requires |events| == |callRecords|
    ensures AllEventAccounts(events + [e], callRecords + [c])
          == AllEventAccounts(events, callRecords) + EventAccounts(e, c)
  {
    if events == [] {
      assert AllEventAccounts([e][1..], [c][1..]) == [];
      assert [] + [e] == [e] && [] + [c] == [c];
    } else {
      assert (events + [e])[1..] == events[1..] + [e] && (callRecords + [c])[1..] == callRecords[1..] + [c];
      AllEventAccountsAppend(events[1..], callRecords[1..], e, c);
    }
  }

  // 5 + N accounts for each event.
  ghost function EventsLength(events: seq<SettlementEvent>): nat {
    if events == [] then 0 else 5 + |events[0].feeRecipientAtas| + EventsLength(events[1..])
  }

  lemma {:induction false} AllEventAccountsMeaning(events: seq<SettlementEvent>, callRecords: seq<Pubkey>)
    requires |events| == |callRecords|
    ensures |AllEventAccounts(events, callRecords)| == EventsLength(events)
    ensures forall m :: m in AllEventAccounts(events, callRecords) ==> !m.isSigner && m.isWritable
  {
    if events != [] {
      AllEventAccountsMeaning(events[1..], callRecords[1..]);
    }
  }

  // One turn of the outer loop.
  method PushEvent(keys: seq<AccountMeta>, ev: SettlementEvent, callRecord: Pubkey) returns (r: seq<AccountMeta>)
    ensures r == keys + EventAccounts(ev, callRecord)
  {
    r := keys + [Writable(callRecord)];
    r := r + [Writable(ev.coveragePool)];
    r := r + [Writable(ev.poolVault)];
    r := r + [Writable(ev.endpointConfig)];
    r := r + [Writable(ev.agentAta)];
    ghost var own := r;
    for j := 0 to |ev.feeRecipientAtas|
      invariant r == own + AllWritable(ev.feeRecipientAtas[..j])
    {
      r := r + [Writable(ev.feeRecipientAtas[j])];
      assert AllWritable(ev.feeRecipientAtas[..j + 1])
          == AllWritable(ev.feeRecipientAtas[..j]) + [Writable(ev.feeRecipientAtas[j])];
    }
    assert ev.feeRecipientAtas[..|ev.feeRecipientAtas|] == ev.feeRecipientAtas;
    ghost var fixed := [callRecord, ev.coveragePool, ev.poolVault, ev.endpointConfig, ev.agentAta];
    assert own == keys + AllWritable(fixed);
    assert EventAccounts(ev, callRecord) == AllWritable(fixed) + AllWritable(ev.feeRecipientAtas);
  }

  method AccountListForBatch(events: seq<SettlementEvent>, callRecords: seq<Pubkey>, settler: Pubkey, authority: Pubkey,
                             programs: Programs, config: Pubkey)
    returns (r: Result<seq<AccountMeta>, AlignError>)
    ensures r.Ok? <==> |events| == |callRecords|
    ensures r.Err? ==> r.error == NotAligned(|events|, |callRecords|)
    ensures r.Ok? ==> r.value == Prefix(settler, authority, programs, config) + AllEventAccounts(events, callRecords)
    ensures r.Ok? ==>
              && |r.value| == 5 + EventsLength(events)
              && r.value[0] == AccountMeta(settler, true, true)
              && r.value[1] == AccountMeta(authority, false, false)
              && r.value[2] == AccountMeta(programs.token, false, false)
              && r.value[3] == AccountMeta(programs.system, false, false)
              && r.value[4] == AccountMeta(config, false, false)
              && forall i :: 5 <= i < |r.value| ==> !r.value[i].isSigner && r.value[i].isWritable
  {
    if |events| != |callRecords| { return Err(NotAligned(|events|, |callRecords|)); }
    var keys := [AccountMeta(settler, true, true), ReadOnly(authority), ReadOnly(programs.token),
                 ReadOnly(programs.system), ReadOnly(config)];
    for i := 0 to |events|
      invariant keys == Prefix(settler, authority, programs, config) + AllEventAccounts(events[..i], callRecords[..i])
    {
      keys := PushEvent(keys, events[i], callRecords[i]);
      TakeOneMore(events, i);
      TakeOneMore(callRecords, i);
      AllEventAccountsAppend(events[..i], callRecords[..i], events[i], callRecords[i]);
    }
    assert events[..|events|] == events && callRecords[..|callRecords|] == callRecords;
    AllEventAccountsMeaning(events, callRecords);
    assert forall i :: 5 <= i < |keys| ==> keys[i] in AllEventAccounts(events, callRecords);
    r := Ok(keys);
  }

  // ---------------------------------------------------------------------------------------------
  // Reading by position
  // ---------------------------------------------------------------------------------------------

  // The accounts of one event, as a reader finds them.
  datatype Slots = Slots(callRecord: Pubkey, coveragePool: Pubkey, poolVault: Pubkey, endpointConfig: Pubkey,
                         agentAta: Pubkey, fees: seq<Pubkey>)

  function Keys(metas: seq<AccountMeta>): (keys: seq<Pubkey>)
    ensures |keys| == |metas| && forall i :: 0 <= i < |metas| ==> keys[i] == metas[i].pubkey
  {
    seq(|metas|, i requires 0 <= i < |metas| => metas[i].pubkey)
  }

  // The accounts of an event, from its keys in the order of the list.
  function SlotsFrom(k: seq<Pubkey>): Slots
    requires EVENT_LEN <= |k|
  {
    Slots(k[0], k[1], k[2], k[3], k[4], k[5..])
  }

  // Reads the events from a position on, given each event's number of fee recipients. None: the list
  // is too short or too long.
  function ReadEvents(metas: seq<AccountMeta>, at: nat, counts: seq<nat>): Option<seq<Slots>>
    decreases |counts|
  {
    if counts == [] then (if at == |metas| then Some([]) else None)
    else if |metas| < at + EVENT_LEN + counts[0] then None
    else
      var slots := SlotsFrom(Keys(metas[at..at + EVENT_LEN + counts[0]]));
      match ReadEvents(metas, at + EVENT_LEN + counts[0], counts[1..])
      case None => None
      case Some(rest) => Some([slots] + rest)
  }

  ghost function SlotsOfOne(e: SettlementEvent, callRecord: Pubkey): Slots {
    Slots(callRecord, e.coveragePool, e.poolVault, e.endpointConfig, e.agentAta, e.feeRecipientAtas)
  }

  ghost function SlotsOf(events: seq<SettlementEvent>, callRecords: seq<Pubkey>): (slots: seq<Slots>)
    requires |events| == |callRecords|
    ensures |slots| == |events|
    ensures forall i :: 0 <= i < |events| ==> var e := events[i];
              slots[i] == SlotsOfOne(e, callRecords[i])
  {
    seq(|events|, i requires 0 <= i < |events| => SlotsOfOne(events[i], callRecords[i]))
  }

  // The recipient counts of the events' endpoints.
  ghost predicate CountsFit(events: seq<SettlementEvent>, counts: seq<nat>) {
    |events| == |counts| && forall i :: 0 <= i < |events| ==> |events[i].feeRecipientAtas| == counts[i]
  }

  lemma MiddleSlice<T>(a: seq<T>, b: seq<T>, c: seq<T>)
    ensures (a + b + c)[|a|..|a| + |b|] == b
  {
  }

  lemma SlotsOfEvent(e: SettlementEvent, callRecord: Pubkey)
    ensures SlotsFrom(Keys(EventAccounts(e, callRecord))) == SlotsOfOne(e, callRecord)
  {
    var fixed := [callRecord, e.coveragePool, e.poolVault, e.endpointConfig, e.agentAta];
    assert Keys(EventAccounts(e, callRecord)) == fixed + e.feeRecipientAtas;
  }

  // One step of the reader.
  lemma ReadStep(metas: seq<AccountMeta>, at: nat, counts: seq<nat>, accounts: seq<AccountMeta>, tail: seq<Slots>)
    requires counts != [] && |accounts| == EVENT_LEN + counts[0] && at + |accounts| <= |metas|
    requires metas[at..at + |accounts|] == accounts
    requires ReadEvents(metas, at + |accounts|, counts[1..]) == Some(tail)
    ensures ReadEvents(metas, at, counts) == Some([SlotsFrom(Keys(accounts))] + tail)
  {
  }

  lemma ReadFirst(before: seq<AccountMeta>, first: seq<AccountMeta>, rest: seq<AccountMeta>, counts: seq<nat>,
                  tail: seq<Slots>)
    requires counts != [] && |first| == EVENT_LEN + counts[0]
    requires ReadEvents(before + first + rest, |before + first|, counts[1..]) == Some(tail)
    ensures ReadEvents(before + first + rest, |before|, counts) == Some([SlotsFrom(Keys(first))] + tail)
  {
    MiddleSlice(before, first, rest);
    ReadStep(before + first + rest, |before|, counts, first, tail);
  }

  lemma SlotsOfFirst(events: seq<SettlementEvent>, callRecords: seq<Pubkey>)
    requires |events| == |callRecords| && events != []
    ensures SlotsOf(events, callRecords)
         == [SlotsOfOne(events[0], callRecords[0])] + SlotsOf(events[1..], callRecords[1..])
  {
  }

  lemma {:induction false} ReadBackFrom(before: seq<AccountMeta>, events: seq<SettlementEvent>,
                                        callRecords: seq<Pubkey>, counts: seq<nat>)
    requires |events| == |callRecords| && CountsFit(events, counts)
    ensures ReadEvents(before + AllEventAccounts(events, callRecords), |before|, counts)
          == Some(SlotsOf(events, callRecords))
    decreases |events|
  {
    if events == [] {
      assert before + [] == before;
    } else {
      var first := EventAccounts(events[0], callRecords[0]);
      var rest := AllEventAccounts(events[1..], callRecords[1..]);
      assert before + AllEventAccounts(events, callRecords) == before + first + rest;
      ReadBackFrom(before + first, events[1..], callRecords[1..], counts[1..]);
      ReadFirst(before, first, rest, counts, SlotsOf(events[1..], callRecords[1..]));
      SlotsOfEvent(events[0], callRecords[0]);
      SlotsOfFirst(events, callRecords);
    }
  }

  /** A positional reader that uses the endpoints' counts recovers the accounts of every event. */
  lemma ReadBack(events: seq<SettlementEvent>, callRecords: seq<Pubkey>, settler: Pubkey, authority: Pubkey,
                 programs: Programs, config: Pubkey, counts: seq<nat>)
    requires |events| == |callRecords| && CountsFit(events, counts)
    ensures var metas := Prefix(settler, authority, programs, config) + AllEventAccounts(events, callRecords);
            ReadEvents(metas, PREFIX_LEN, counts) == Some(SlotsOf(events, callRecords))
  {
    ReadBackFrom(Prefix(settler, authority, programs, config), events, callRecords, counts);
  }

  /** So two batches with the same list and the same counts have the same accounts, event by event. */
  lemma ListDeterminesEvents(es: seq<SettlementEvent>, fs: seq<SettlementEvent>, cs: seq<Pubkey>, ds: seq<Pubkey>,
                             settler: Pubkey, authority: Pubkey, programs: Programs, config: Pubkey, counts: seq<nat>)
    requires |es| == |cs| && |fs| == |ds| && CountsFit(es, counts) && CountsFit(fs, counts)
    requires AllEventAccounts(es, cs) == AllEventAccounts(fs, ds)
    ensures es == fs && cs == ds
  {
    ReadBack(es, cs, settler, authority, programs, config, counts);
    ReadBack(fs, ds, settler, authority, programs, config, counts);
    var s, t := SlotsOf(es, cs), SlotsOf(fs, ds);
    assert s == t;
    forall i | 0 <= i < |es|
      ensures es[i] == fs[i] && cs[i] == ds[i]
    {
      assert s[i] == t[i];
    }
  }

  // Where event i starts.
  ghost function StartOf(counts: seq<nat>, i: nat): nat
    requires i <= |counts|
  {
    if i == 0 then 5 else StartOf(counts, i - 1) + 5 + counts[i - 1]
  }

  lemma {:induction false} AllEventAccountsConcat(a: seq<SettlementEvent>, ca: seq<Pubkey>, b: seq<SettlementEvent>,
                                                  cb: seq<Pubkey>)
    requires |a| == |ca| && |b| == |cb|
    ensures AllEventAccounts(a + b, ca + cb) == AllEventAccounts(a, ca) + AllEventAccounts(b, cb)
  {
    if a == [] {
      assert a + b == b && ca + cb == cb;
    } else {
      assert (a + b)[1..] == a[1..] + b && (ca + cb)[1..] == ca[1..] + cb;
      AllEventAccountsConcat(a[1..], ca[1..], b, cb);
    }
  }

  lemma {:induction false} EventsUpTo(events: seq<SettlementEvent>, callRecords: seq<Pubkey>, counts: seq<nat>, n: nat)
    requires |events| == |callRecords| && CountsFit(events, counts) && n <= |events|
    ensures |AllEventAccounts(events[..n], callRecords[..n])| + PREFIX_LEN == StartOf(counts, n)
    ensures AllEventAccounts(events[..n], callRecords[..n]) <= AllEventAccounts(events, callRecords)
    decreases n
  {
    assert events == events[..n] + events[n..] && callRecords == callRecords[..n] + callRecords[n..];
    AllEventAccountsConcat(events[..n], callRecords[..n], events[n..], callRecords[n..]);
    if n != 0 {
      EventsUpTo(events, callRecords, counts, n - 1);
      assert events[..n] == events[..n - 1] + [events[n - 1]];
      assert callRecords[..n] == callRecords[..n - 1] + [callRecords[n - 1]];
      AllEventAccountsAppend(events[..n - 1], callRecords[..n - 1], events[n - 1], callRecords[n - 1]);
    }
  }

  lemma EventSlots(e: SettlementEvent, callRecord: Pubkey)
    ensures var a := EventAccounts(e, callRecord);
            && |a| == 5 + |e.feeRecipientAtas|
            && a[0] == AccountMeta(callRecord, false, true) && a[1] == AccountMeta(e.coveragePool, false, true)
            && a[2] == AccountMeta(e.poolVault, false, true) && a[3] == AccountMeta(e.endpointConfig, false, true)
            && a[4] == AccountMeta(e.agentAta, false, true)
            && forall j :: 0 <= j < |e.feeRecipientAtas| ==>
                 a[5 + j] == AccountMeta(e.feeRecipientAtas[j], false, true)
  {
  }

  /**
   The accounts of event i are, from position 5 + the sum of 5 + N over the events before it on: its call
   record, pool, vault, endpoint and agent, and then its fee recipients in order.
   */
  lemma EventPlace(events: seq<SettlementEvent>, callRecords: seq<Pubkey>, settler: Pubkey, authority: Pubkey,
                   programs: Programs, config: Pubkey, counts: seq<nat>, i: nat)
    requires |events| == |callRecords| && CountsFit(events, counts) && i < |events|
    ensures var metas := Prefix(settler, authority, programs, config) + AllEventAccounts(events, callRecords);
            var at, e := StartOf(counts, i), events[i];
            && StartOf(counts, i + 1) == at + 5 + counts[i] <= |metas|
            && metas[at] == AccountMeta(callRecords[i], false, true)
            && metas[at + 1] == AccountMeta(e.coveragePool, false, true)
            && metas[at + 2] == AccountMeta(e.poolVault, false, true)
            && metas[at + 3] == AccountMeta(e.endpointConfig, false, true)
            && metas[at + 4] == AccountMeta(e.agentAta, false, true)
            && forall j :: 0 <= j < counts[i] ==> metas[at + 5 + j] == AccountMeta(e.feeRecipientAtas[j], false, true)
  {
    EventsUpTo(events, callRecords, counts, i);
    EventsUpTo(events, callRecords, counts, i + 1);
    TakeOneMore(events, i);
    TakeOneMore(callRecords, i);
    AllEventAccountsAppend(events[..i], callRecords[..i], events[i], callRecords[i]);
    EventSlots(events[i], callRecords[i]);
    var metas := Prefix(settler, authority, programs, config) + AllEventAccounts(events, callRecords);
    var at := StartOf(counts, i);
    assert forall j :: 0 <= j < 5 + counts[i] ==> metas[at + j] == EventAccounts(events[i], callRecords[i])[j];
  }

  // ---------------------------------------------------------------------------------------------
  // The settler's pre-flight
  // ---------------------------------------------------------------------------------------------

  // NoRecipient: the index is beyond endpoint.feeRecipients and the access throws.
  datatype Match =
    | Matches
    | CountDiffers(expected: int, provided: nat)
    | SlotDiffers(slot: nat)
    | NoRecipient(slot: nat)

  ghost predicate FeesMatch(endpoint: EndpointConfig, atas: seq<Pubkey>) {
    && |atas| == endpoint.feeRecipientCount <= |endpoint.feeRecipients|
    && forall i :: 0 <= i < |atas| ==> atas[i] == endpoint.feeRecipients[i].destination
  }

  method FeeAtasMatchEndpoint(endpoint: EndpointConfig, atas: seq<Pubkey>) returns (m: Match)
    ensures |atas| != endpoint.feeRecipientCount <==> m == CountDiffers(endpoint.feeRecipientCount, |atas|)
    ensures m.CountDiffers? ==> |atas| != endpoint.feeRecipientCount
    ensures m.Matches? <==> FeesMatch(endpoint, atas)
    ensures m.SlotDiffers? ==>
              && m.slot < |atas| && m.slot < |endpoint.feeRecipients|
              && atas[m.slot] != endpoint.feeRecipients[m.slot].destination
              && forall i :: 0 <= i < m.slot ==> atas[i] == endpoint.feeRecipients[i].destination
    ensures m.NoRecipient? ==> |endpoint.feeRecipients| == m.slot < |atas|
  {
    if |atas| != endpoint.feeRecipientCount { return CountDiffers(endpoint.feeRecipientCount, |atas|); }
    for i := 0 to |atas|
      invariant i <= |endpoint.feeRecipients|
      invariant forall j :: 0 <= j < i ==> atas[j] == endpoint.feeRecipients[j].destination
    {
      if i >= |endpoint.feeRecipients| { return NoRecipient(i); }
      if atas[i] != endpoint.feeRecipients[i].destination { return SlotDiffers(i); }
    }
    m := Matches;
  }

  /**
   If every event passes the pre-flight against its endpoint, then a reader that takes the counts from
   the endpoints finds in each event's fee slots exactly the endpoint's destinations, in order.
   */
  lemma FeeSlotsAreDestinations(events: seq<SettlementEvent>, callRecords: seq<Pubkey>, endpoints: seq<EndpointConfig>,
                                settler: Pubkey, authority: Pubkey, programs: Programs, config: Pubkey, i: nat)
    requires |events| == |callRecords| == |endpoints| && i < |events|
    requires forall k :: 0 <= k < |events| ==> FeesMatch(endpoints[k], events[k].feeRecipientAtas)
    ensures var counts := seq(|endpoints|, k requires 0 <= k < |endpoints| => endpoints[k].feeRecipientCount as nat);
            var metas := Prefix(settler, authority, programs, config) + AllEventAccounts(events, callRecords);
            var read := ReadEvents(metas, PREFIX_LEN, counts);
            && read.Some? && |read.value| == |events|
            && |read.value[i].fees| == endpoints[i].feeRecipientCount <= |endpoints[i].feeRecipients|
            && forall j :: 0 <= j < |read.value[i].fees|
                  ==> read.value[i].fees[j] == endpoints[i].feeRecipients[j].destination
  {
    var counts := seq(|endpoints|, k requires 0 <= k < |endpoints| => endpoints[k].feeRecipientCount as nat);
    assert CountsFit(events, counts) by {
      forall k | 0 <= k < |events|
        ensures |events[k].feeRecipientAtas| == counts[k]
      {
        assert FeesMatch(endpoints[k], events[k].feeRecipientAtas);
      }
    }
    ReadBack(events, callRecords, settler, authority, programs, config, counts);
    assert FeesMatch(endpoints[i], events[i].feeRecipientAtas);
  }
}
