/**
 Validating a list of fee recipients, in the Solana and the EVM variant, and the split of a premium
 among the recipients of an accepted list.
 */
module FeeRecipients {

  const MAX_FEE_RECIPIENTS := 8
  const ABSOLUTE_FEE_BPS_CAP := 10000

  const TREASURY := 0
  const AFFILIATE_ATA := 1
  const AFFILIATE_PDA := 2

  datatype FeeRecipient = FeeRecipient(kind: int, destination: string, bps: int)

  // { valid: true }, or the reason why not.
  datatype Verdict =
    | Valid
    | CountMismatch(count: int, length: nat)
    | ArrayTooLong(count: int)
    | CapTooHigh(maxTotalFeeBps: int)
    | InvalidKind(kind: int)
    | EntryExceedsCap(bps: int)
    | MultipleTreasury
    | DuplicateDestination(destination: string)
    | SumOver10k(sum: int)
    | SumExceedsMax(sum: int, maxTotalFeeBps: int)

  // What a destination is compared by.
  type Key = string -> string

  // ---------------------------------------------------------------------------------------------
  // What a verdict has to be
  // ---------------------------------------------------------------------------------------------

  predicate IsKind(kind: int) {
    kind == TREASURY || kind == AFFILIATE_ATA || kind == AFFILIATE_PDA
  }

  ghost predicate TreasuryBefore(rs: seq<FeeRecipient>, i: nat)
    requires i <= |rs|
  {
    exists j :: 0 <= j < i && rs[j].kind == TREASURY
  }

  ghost predicate DestinationBefore(rs: seq<FeeRecipient>, key: Key, i: nat)
    requires i < |rs|
  {
    exists j :: 0 <= j < i && key(rs[j].destination) == key(rs[i].destination)
  }

  ghost predicate EntryOk(rs: seq<FeeRecipient>, key: Key, i: nat)
    requires i < |rs|
  {
    && IsKind(rs[i].kind) && rs[i].bps <= ABSOLUTE_FEE_BPS_CAP
    && !(rs[i].kind == TREASURY && TreasuryBefore(rs, i))
    && !DestinationBefore(rs, key, i)
  }

  // Entry i fails, and v is the first of its reasons in the order of the checks.
  ghost predicate EntryFault(rs: seq<FeeRecipient>, key: Key, i: nat, v: Verdict)
    requires i < |rs|
  {
    if !IsKind(rs[i].kind) then v == InvalidKind(rs[i].kind)
    else if rs[i].bps > ABSOLUTE_FEE_BPS_CAP then v == EntryExceedsCap(rs[i].bps)
    else if rs[i].kind == TREASURY && TreasuryBefore(rs, i) then v == MultipleTreasury
    else DestinationBefore(rs, key, i) && v == DuplicateDestination(rs[i].destination)
  }

  // The total of a weight over the recipients.
  ghost function Weigh(rs: seq<FeeRecipient>, w: FeeRecipient -> int): int {
    if rs == [] then 0 else w(rs[0]) + Weigh(rs[1..], w)
  }

  ghost function SumBps(rs: seq<FeeRecipient>): int {
    Weigh(rs, (r: FeeRecipient) => r.bps)
  }

  // v is the first failure in the order of the checks, or Valid if there is none.
  ghost predicate IsVerdict(rs: seq<FeeRecipient>, count: int, max: int, key: Key, v: Verdict) {
    if count != |rs| then v == CountMismatch(count, |rs|)
    else if count > MAX_FEE_RECIPIENTS then v == ArrayTooLong(count)
    else if max > ABSOLUTE_FEE_BPS_CAP then v == CapTooHigh(max)
    else if exists i :: 0 <= i < |rs| && !EntryOk(rs, key, i) then
      exists i :: 0 <= i < |rs| && EntryFault(rs, key, i, v) && forall j :: 0 <= j < i ==> EntryOk(rs, key, j)
    else if SumBps(rs) > ABSOLUTE_FEE_BPS_CAP then v == SumOver10k(SumBps(rs))
    else if SumBps(rs) > max then v == SumExceedsMax(SumBps(rs), max)
    else v == Valid
  }

  // ---------------------------------------------------------------------------------------------
  // The two validators
  // ---------------------------------------------------------------------------------------------

  // The first entry that fails decides the verdict.
  lemma FaultDecides(rs: seq<FeeRecipient>, count: int, max: int, key: Key, i: nat, v: Verdict)
    requires count == |rs| <= MAX_FEE_RECIPIENTS && max <= ABSOLUTE_FEE_BPS_CAP
    requires i < |rs| && EntryFault(rs, key, i, v) && forall j :: 0 <= j < i ==> EntryOk(rs, key, j)
    ensures IsVerdict(rs, count, max, key, v)
  {
    assert !EntryOk(rs, key, i);
  }

  lemma {:induction false} WeighAppend(rs: seq<FeeRecipient>, r: FeeRecipient, w: FeeRecipient -> int)
    ensures Weigh(rs + [r], w) == Weigh(rs, w) + w(r)
  {
    if rs == [] {
      assert Weigh([r][1..], w) == 0;
    } else {
      assert (rs + [r])[1..] == rs[1..] + [r];
      WeighAppend(rs[1..], r, w);
    }
  }

  lemma SumBpsStep(rs: seq<FeeRecipient>, i: nat)
    requires i < |rs|
    ensures SumBps(rs[..i + 1]) == SumBps(rs[..i]) + rs[i].bps
  {
    assert rs[..i + 1] == rs[..i] + [rs[i]];
    WeighAppend(rs[..i], rs[i], (r: FeeRecipient) => r.bps);
  }

  function Identity(): Key {
    (s: string) => s
  }

  // protocol-v1-client
  method ValidateSolana(recipients: seq<FeeRecipient>, count: int, maxTotalFeeBps: int) returns (v: Verdict)
    ensures IsVerdict(recipients, count, maxTotalFeeBps, Identity(), v)
  {
    if count != |recipients| { return CountMismatch(count, |recipients|); }
    if count > MAX_FEE_RECIPIENTS { return ArrayTooLong(count); }
    if maxTotalFeeBps > ABSOLUTE_FEE_BPS_CAP { return CapTooHigh(maxTotalFeeBps); }
    var sum, treasurySeen, seenDest: set<string> := 0, false, {};
    for i := 0 to |recipients|
      invariant forall j :: 0 <= j < i ==> EntryOk(recipients, Identity(), j)
      invariant sum == SumBps(recipients[..i])
      invariant treasurySeen <==> TreasuryBefore(recipients, i)
      invariant forall d :: d in seenDest <==> exists j :: 0 <= j < i && recipients[j].destination == d
    {
      var r := recipients[i];
      var key := Identity();
      assert forall j :: 0 <= j < i ==> key(recipients[j].destination) == recipients[j].destination;
      ghost var repeated := DestinationBefore(recipients, key, i);
      if !IsKind(r.kind) {
        v := InvalidKind(r.kind);
        FaultDecides(recipients, count, maxTotalFeeBps, key, i, v);
        return;
      }
      if r.bps > ABSOLUTE_FEE_BPS_CAP {
        v := EntryExceedsCap(r.bps);
        FaultDecides(recipients, count, maxTotalFeeBps, key, i, v);
        return;
      }
      if r.kind == TREASURY {
        if treasurySeen { v := MultipleTreasury; FaultDecides(recipients, count, maxTotalFeeBps, key, i, v); return; }
        treasurySeen := true;
      }
      if r.destination in seenDest {
        v := DuplicateDestination(r.destination);
        FaultDecides(recipients, count, maxTotalFeeBps, key, i, v);
        return;
      }
      seenDest := seenDest + {r.destination};
      sum := sum + r.bps;
      SumBpsStep(recipients, i);
      assert EntryOk(recipients, key, i);
    }
    assert recipients[..|recipients|] == recipients;
    if sum > ABSOLUTE_FEE_BPS_CAP { return SumOver10k(sum); }
    if sum > maxTotalFeeBps { return SumExceedsMax(sum, maxTotalFeeBps); }
    v := Valid;
  }

  // protocol-evm-v1-client: destinations are compared in lower case, and reported as they are.
  method ValidateEvm(lower: Key, recipients: seq<FeeRecipient>, count: int, maxTotalFeeBps: int) returns (v: Verdict)
    ensures IsVerdict(recipients, count, maxTotalFeeBps, lower, v)
  {
    if count != |recipients| { return CountMismatch(count, |recipients|); }
    if count > MAX_FEE_RECIPIENTS { return ArrayTooLong(count); }
    if maxTotalFeeBps > ABSOLUTE_FEE_BPS_CAP { return CapTooHigh(maxTotalFeeBps); }
    var sum, treasurySeen, seenDest: set<string> := 0, false, {};
    for i := 0 to |recipients|
      invariant forall j :: 0 <= j < i ==> EntryOk(recipients, lower, j)
      invariant sum == SumBps(recipients[..i])
      invariant treasurySeen <==> TreasuryBefore(recipients, i)
      invariant forall d :: d in seenDest <==> exists j :: 0 <= j < i && lower(recipients[j].destination) == d
    {
      var r := recipients[i];
      ghost var repeated := DestinationBefore(recipients, lower, i);
      if !IsKind(r.kind) {
        v := InvalidKind(r.kind);
        FaultDecides(recipients, count, maxTotalFeeBps, lower, i, v);
        return;
      }
      if r.bps > ABSOLUTE_FEE_BPS_CAP {
        v := EntryExceedsCap(r.bps);
        FaultDecides(recipients, count, maxTotalFeeBps, lower, i, v);
        return;
      }
      if r.kind == TREASURY {
        if treasurySeen { v := MultipleTreasury; FaultDecides(recipients, count, maxTotalFeeBps, lower, i, v); return; }
        treasurySeen := true;
      }
      var dest := lower(r.destination);
      if dest in seenDest {
        v := DuplicateDestination(r.destination);
        FaultDecides(recipients, count, maxTotalFeeBps, lower, i, v);
        return;
      }
      seenDest := seenDest + {dest};
      sum := sum + r.bps;
      SumBpsStep(recipients, i);
      assert EntryOk(recipients, lower, i);
    }
    assert recipients[..|recipients|] == recipients;
    if sum > ABSOLUTE_FEE_BPS_CAP { return SumOver10k(sum); }
    if sum > maxTotalFeeBps { return SumExceedsMax(sum, maxTotalFeeBps); }
    v := Valid;
  }

  // ---------------------------------------------------------------------------------------------
  // Acceptance
  // ---------------------------------------------------------------------------------------------

  /** What acceptance means, without any order of checks. */
  ghost predicate Acceptable(rs: seq<FeeRecipient>, count: int, max: int, key: Key) {
    && count == |rs| <= 8 && max <= 10000
    && (forall r :: r in rs ==> 0 <= r.kind <= 2 && r.bps <= 10000)
    && (forall i, j :: 0 <= i < j < |rs| ==> !(rs[i].kind == 0 && rs[j].kind == 0))
    && (forall i, j :: 0 <= i < j < |rs| ==> key(rs[i].destination) != key(rs[j].destination))
    && SumBps(rs) <= max
  }

  lemma ValidEntriesOk(rs: seq<FeeRecipient>, count: int, max: int, key: Key)
    requires IsVerdict(rs, count, max, key, Valid)
    ensures count == |rs| <= MAX_FEE_RECIPIENTS && max <= ABSOLUTE_FEE_BPS_CAP
    ensures forall i :: 0 <= i < |rs| ==> EntryOk(rs, key, i)
  {
    if i :| 0 <= i < |rs| && EntryFault(rs, key, i, Valid) {
      assert false;
    }
  }

  lemma AcceptsIff(rs: seq<FeeRecipient>, count: int, max: int, key: Key, v: Verdict)
    requires IsVerdict(rs, count, max, key, v)
    ensures v.Valid? <==> Acceptable(rs, count, max, key)
  {
    if Acceptable(rs, count, max, key) {
      forall i | 0 <= i < |rs|
        ensures EntryOk(rs, key, i)
      {
        assert rs[i] in rs;
      }
    }
    if v.Valid? {
      ValidEntriesOk(rs, count, max, key);
      forall r | r in rs
        ensures IsKind(r.kind) && r.bps <= ABSOLUTE_FEE_BPS_CAP
      {
        var i :| 0 <= i < |rs| && rs[i] == r;
        assert EntryOk(rs, key, i);
      }
      forall i, j | 0 <= i < j < |rs|
        ensures !(rs[i].kind == TREASURY && rs[j].kind == TREASURY)
        ensures key(rs[i].destination) != key(rs[j].destination)
      {
        assert EntryOk(rs, key, j);
      }
    }
  }

  // A list has at most one verdict.
  lemma VerdictIsUnique(rs: seq<FeeRecipient>, count: int, max: int, key: Key, v: Verdict, w: Verdict)
    requires IsVerdict(rs, count, max, key, v) && IsVerdict(rs, count, max, key, w)
    ensures v == w
  {
    var limitsOk := count == |rs| <= MAX_FEE_RECIPIENTS && max <= ABSOLUTE_FEE_BPS_CAP;
    if limitsOk && exists i :: 0 <= i < |rs| && !EntryOk(rs, key, i) {
      var i :| 0 <= i < |rs| && EntryFault(rs, key, i, v) && forall j :: 0 <= j < i ==> EntryOk(rs, key, j);
      var k :| 0 <= k < |rs| && EntryFault(rs, key, k, w) && forall j :: 0 <= j < k ==> EntryOk(rs, key, j);
      assert !EntryOk(rs, key, i) && !EntryOk(rs, key, k);
      assert i == k;
    }
  }

  // ---------------------------------------------------------------------------------------------
  // Order does not matter for acceptance
  // ---------------------------------------------------------------------------------------------

  lemma {:induction false} WeighAround(a: seq<FeeRecipient>, r: FeeRecipient, b: seq<FeeRecipient>,
                                       w: FeeRecipient -> int)
    ensures Weigh(a + [r] + b, w) == w(r) + Weigh(a + b, w)
  {
    if a == [] {
      assert [] + [r] + b == [r] + b && ([r] + b)[1..] == b && [] + b == b;
    } else {
      assert (a + [r] + b)[1..] == a[1..] + [r] + b && (a + b)[1..] == a[1..] + b;
      WeighAround(a[1..], r, b, w);
    }
  }

  lemma RestPermuted(rs: seq<FeeRecipient>, a: seq<FeeRecipient>, r: FeeRecipient, b: seq<FeeRecipient>)
    requires rs != [] && rs[0] == r && multiset(rs) == multiset(a + [r] + b)
    ensures multiset(rs[1..]) == multiset(a + b)
  {
    assert rs == [r] + rs[1..];
    assert multiset(rs[1..]) == multiset(rs) - multiset{r};
    assert multiset(a + [r] + b) == multiset(a + b) + multiset{r};
  }

  // A total depends on which recipients there are, not on their order.
  lemma {:induction false} WeighPermuted(rs: seq<FeeRecipient>, qs: seq<FeeRecipient>, w: FeeRecipient -> int)
    requires multiset(rs) == multiset(qs)
    ensures Weigh(rs, w) == Weigh(qs, w)
    decreases |rs|
  {
    assert |multiset(rs)| == |rs| && |multiset(qs)| == |qs|;
    if rs != [] {
      var r := rs[0];
      assert r in multiset(rs);
      var k :| 0 <= k < |qs| && qs[k] == r;
      var a, b := qs[..k], qs[k + 1..];
      assert qs == a + [r] + b;
      RestPermuted(rs, a, r, b);
      WeighPermuted(rs[1..], a + b, w);
      WeighAround(a, r, b, w);
    }
  }

  // 1 for the recipients of a class, 0 for the others.
  ghost function Indicator(p: FeeRecipient -> bool): FeeRecipient -> int {
    (r: FeeRecipient) => if p(r) then 1 else 0
  }

  lemma {:induction false} NoneWeighsNothing(rs: seq<FeeRecipient>, p: FeeRecipient -> bool)
    ensures Weigh(rs, Indicator(p)) >= 0
    ensures Weigh(rs, Indicator(p)) == 0 <==> forall j :: 0 <= j < |rs| ==> !p(rs[j])
  {
    if rs != [] {
      NoneWeighsNothing(rs[1..], p);
      assert forall j :: 1 <= j < |rs| ==> rs[j] == rs[1..][j - 1];
    }
  }

  // At most one recipient of a class is the same as a total of at most one.
  lemma {:induction false} AtMostOne(rs: seq<FeeRecipient>, p: FeeRecipient -> bool)
    ensures Weigh(rs, Indicator(p)) <= 1 <==> forall i, j :: 0 <= i < j < |rs| ==> !(p(rs[i]) && p(rs[j]))
  {
    if rs != [] {
      AtMostOne(rs[1..], p);
      NoneWeighsNothing(rs[1..], p);
      assert forall j :: 1 <= j < |rs| ==> rs[j] == rs[1..][j - 1];
      if Weigh(rs, Indicator(p)) <= 1 {
        forall i, j | 0 <= i < j < |rs|
          ensures !(p(rs[i]) && p(rs[j]))
        {
          if 0 < i {
            assert rs[1..][i - 1] == rs[i] && rs[1..][j - 1] == rs[j];
          }
        }
      } else if p(rs[0]) {
        var j :| 0 <= j < |rs[1..]| && p(rs[1..][j]);
        assert p(rs[0]) && p(rs[j + 1]);
      } else {
        var i, j :| 0 <= i < j < |rs[1..]| && p(rs[1..][i]) && p(rs[1..][j]);
        assert p(rs[i + 1]) && p(rs[j + 1]);
      }
    }
  }

  lemma AtMostOnePermuted(rs: seq<FeeRecipient>, qs: seq<FeeRecipient>, p: FeeRecipient -> bool)
    requires multiset(rs) == multiset(qs)
    requires forall i, j :: 0 <= i < j < |rs| ==> !(p(rs[i]) && p(rs[j]))
    ensures forall i, j :: 0 <= i < j < |qs| ==> !(p(qs[i]) && p(qs[j]))
  {
    AtMostOne(rs, p);
    AtMostOne(qs, p);
    WeighPermuted(rs, qs, Indicator(p));
  }

  /** Whether a list is accepted does not depend on the order of its recipients. */
  lemma AcceptancePermuted(rs: seq<FeeRecipient>, qs: seq<FeeRecipient>, count: int, max: int, key: Key)
    requires multiset(rs) == multiset(qs) && Acceptable(rs, count, max, key)
    ensures Acceptable(qs, count, max, key)
  {
    assert |rs| == |multiset(rs)| == |qs|;
    forall r | r in qs
      ensures r in rs
    {
      assert r in multiset(qs);
    }
    AtMostOnePermuted(rs, qs, (r: FeeRecipient) => r.kind == TREASURY);
    forall i, j | 0 <= i < j < |qs|
      ensures key(qs[i].destination) != key(qs[j].destination)
    {
      AtMostOnePermuted(rs, qs, (r: FeeRecipient) => key(r.destination) == key(qs[i].destination));
    }
    WeighPermuted(rs, qs, (r: FeeRecipient) => r.bps);
  }

  // ---------------------------------------------------------------------------------------------
  // The EVM validator is the Solana validator on keys
  // ---------------------------------------------------------------------------------------------

  ghost function Rekey(rs: seq<FeeRecipient>, key: Key): (qs: seq<FeeRecipient>)
    ensures |qs| == |rs| && forall i :: 0 <= i < |rs| ==> qs[i] == rs[i].(destination := key(rs[i].destination))
  {
    if rs == [] then [] else [rs[0].(destination := key(rs[0].destination))] + Rekey(rs[1..], key)
  }

  ghost function RekeyVerdict(v: Verdict, key: Key): Verdict {
    if v.DuplicateDestination? then DuplicateDestination(key(v.destination)) else v
  }

  lemma {:induction false} RekeyKeepsSum(rs: seq<FeeRecipient>, key: Key)
    ensures SumBps(Rekey(rs, key)) == SumBps(rs)
  {
    if rs != [] {
      RekeyKeepsSum(rs[1..], key);
    }
  }

  lemma RekeyBefore(rs: seq<FeeRecipient>, key: Key, i: nat)
    requires i < |rs|
    ensures TreasuryBefore(Rekey(rs, key), i) <==> TreasuryBefore(rs, i)
    ensures DestinationBefore(Rekey(rs, key), Identity(), i) <==> DestinationBefore(rs, key, i)
  {
    var qs := Rekey(rs, key);
    if j :| 0 <= j < i && rs[j].kind == TREASURY {
      assert qs[j].kind == TREASURY;
    }
    if j :| 0 <= j < i && key(rs[j].destination) == key(rs[i].destination) {
      assert Identity()(qs[j].destination) == Identity()(qs[i].destination);
    }
  }

  lemma RekeyEntry(rs: seq<FeeRecipient>, key: Key, i: nat, v: Verdict)
    requires i < |rs|
    ensures EntryOk(Rekey(rs, key), Identity(), i) <==> EntryOk(rs, key, i)
    ensures EntryFault(rs, key, i, v) ==> EntryFault(Rekey(rs, key), Identity(), i, RekeyVerdict(v, key))
  {
    RekeyBefore(rs, key, i);
  }

  /**
   The EVM verdict is the Solana verdict on the list with lower-case destinations, except that it
   reports a repeated destination as it was written.
   */
  lemma EvmIsSolanaOnKeys(rs: seq<FeeRecipient>, count: int, max: int, key: Key, v: Verdict)
    requires IsVerdict(rs, count, max, key, v)
    ensures IsVerdict(Rekey(rs, key), count, max, Identity(), RekeyVerdict(v, key))
  {
    var qs := Rekey(rs, key);
    RekeyKeepsSum(rs, key);
    forall i | 0 <= i < |rs|
      ensures EntryOk(qs, Identity(), i) <==> EntryOk(rs, key, i)
      ensures EntryFault(rs, key, i, v) ==> EntryFault(qs, Identity(), i, RekeyVerdict(v, key))
    {
      RekeyEntry(rs, key, i, v);
    }
  }

  // ---------------------------------------------------------------------------------------------
  // The split of a premium
  // ---------------------------------------------------------------------------------------------

  // A share, rounded down: bigint division of non-negative numbers.
  function Share(premium: nat, bps: nat): nat {
    premium * bps / 10000
  }

  function SumShares(premium: nat, rs: seq<FeeRecipient>): nat
    requires forall r :: r in rs ==> 0 <= r.bps
  {
    if rs == [] then 0 else Share(premium, rs[0].bps) + SumShares(premium, rs[1..])
  }

  lemma ShareBounds(premium: nat, bps: nat)
    ensures 10000 * Share(premium, bps) <= premium * bps < 10000 * Share(premium, bps) + 10000
  {
  }

  lemma {:induction false} SharesBounds(premium: nat, rs: seq<FeeRecipient>)
    requires forall r :: r in rs ==> 0 <= r.bps
    ensures 10000 * SumShares(premium, rs) <= premium * SumBps(rs) <= 10000 * SumShares(premium, rs) + 10000 * |rs|
    ensures rs != [] ==> premium * SumBps(rs) < 10000 * SumShares(premium, rs) + 10000 * |rs|
  {
    if rs != [] {
      SharesBounds(premium, rs[1..]);
      ShareBounds(premium, rs[0].bps);
      var head, tail := rs[0].bps, SumBps(rs[1..]);
      assert SumBps(rs) == head + tail;
      assert premium * (head + tail) == premium * head + premium * tail;
    }
  }

  lemma Scaled(premium: nat, a: int, b: int)
    requires a <= b
    ensures premium * a <= premium * b
  {
  }

  /**
   For an accepted list the shares and the pool's residual make up the premium: the shares together
   are at most the allowed part of the premium, so that the residual is not negative; and rounding
   favours the pool, by less than one unit for each recipient.
   */
  lemma SplitIsSafe(premium: nat, rs: seq<FeeRecipient>, count: int, max: int, key: Key)
    requires Acceptable(rs, count, max, key) && forall r :: r in rs ==> 0 <= r.bps
    ensures var shares := SumShares(premium, rs);
            && 10000 * shares <= premium * max <= 10000 * premium
            && shares <= premium * max / 10000 <= premium
            && premium * (10000 - SumBps(rs)) <= 10000 * (premium - shares)
            && (rs != [] ==> 10000 * (premium - shares) < premium * (10000 - SumBps(rs)) + 10000 * |rs|)
  {
    SharesBounds(premium, rs);
    Scaled(premium, SumBps(rs), max);
    Scaled(premium, max, 10000);
    assert premium * (10000 - SumBps(rs)) == premium * 10000 - premium * SumBps(rs);
  }
}
