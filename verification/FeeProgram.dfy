/**
 How the programs themselves check the fee recipients of an endpoint, and what that means for the
 clients' validators, which callers run beforehand.

 The Solana program parses and validates the list, gives the treasury entry the treasury's vault as
 destination, checks again, and looks into the affiliates' token accounts. The EVM contract does the
 same, except that it compares the affiliates with the zero address instead. The validators do what the
 first of these steps does. So a list that they accept can still be rejected, and it is shown exactly
 when, for each program.
 */
module FeeProgram {

  import opened Wrappers
  import opened FeeRecipients
  import A = AccountLayouts

  datatype ProgramError =
    | FeeRecipientArrayTooLong
    | FeeBpsExceedsCap
    | InvalidFeeRecipientKind
    | MultipleTreasuryRecipients
    | FeeRecipientDuplicateDestination
    | FeeBpsSumOver10k
    | MissingTreasuryEntry
    | TreasuryBpsZero
    | InvalidAffiliateAta
    | InvalidInstructionData
    | NotEnoughAccountKeys

  // The kind is a byte, the share a 16-bit number.
  predicate OnWire(rs: seq<FeeRecipient>) {
    forall r :: r in rs ==> 0 <= r.kind < 0x100 && 0 <= r.bps < 0x1_0000
  }

  // The error that a validator's reason names.
  function CodeOf(v: Verdict): Option<ProgramError>
    requires !v.CountMismatch?
  {
    match v
    case Valid => None
    case ArrayTooLong(_) => Some(FeeRecipientArrayTooLong)
    case CapTooHigh(_) => Some(FeeBpsExceedsCap)
    case InvalidKind(_) => Some(InvalidFeeRecipientKind)
    case EntryExceedsCap(_) => Some(FeeBpsExceedsCap)
    case MultipleTreasury => Some(MultipleTreasuryRecipients)
    case DuplicateDestination(_) => Some(FeeRecipientDuplicateDestination)
    case SumOver10k(_) => Some(FeeBpsSumOver10k)
    case SumExceedsMax(_, _) => Some(FeeBpsExceedsCap)
  }

  ghost predicate Names(v: Verdict, e: Option<ProgramError>) {
    !v.CountMismatch? && e == CodeOf(v)
  }

  function Capped(max: int): int {
    if max < ABSOLUTE_FEE_BPS_CAP then max else ABSOLUTE_FEE_BPS_CAP
  }

  // ---------------------------------------------------------------------------------------------
  // The first step
  // ---------------------------------------------------------------------------------------------

  // The inner loop of both steps.
  method RepeatsEarlier(rs: seq<FeeRecipient>, i: nat, key: Key) returns (found: bool)
    requires i < |rs|
    ensures found <==> DestinationBefore(rs, key, i)
  {
    for j := 0 to i
      invariant forall k :: 0 <= k < j ==> key(rs[k].destination) != key(rs[i].destination)
    {
      if key(rs[j].destination) == key(rs[i].destination) { return true; }
    }
    found := false;
  }

  // The checks of one entry: the error names what a validator says about it.
  method CheckEntry(rs: seq<FeeRecipient>, i: nat, treasurySeen: bool, key: Key) returns (e: Option<ProgramError>)
    requires i < |rs| && (treasurySeen <==> TreasuryBefore(rs, i))
    ensures e.None? <==> EntryOk(rs, key, i)
    ensures e.Some? ==> exists v :: EntryFault(rs, key, i, v) && Names(v, e)
  {
    var r := rs[i];
    if !IsKind(r.kind) {
      assert EntryFault(rs, key, i, InvalidKind(r.kind));
      return Some(InvalidFeeRecipientKind);
    }
    if r.bps > ABSOLUTE_FEE_BPS_CAP {
      assert EntryFault(rs, key, i, EntryExceedsCap(r.bps));
      return Some(FeeBpsExceedsCap);
    }
    if r.kind == TREASURY && treasurySeen {
      assert EntryFault(rs, key, i, MultipleTreasury);
      return Some(MultipleTreasuryRecipients);
    }
    var repeated := RepeatsEarlier(rs, i, key);
    if repeated {
      assert EntryFault(rs, key, i, DuplicateDestination(r.destination));
      return Some(FeeRecipientDuplicateDestination);
    }
    e := None;
  }

  ghost predicate Parsed(rs: seq<FeeRecipient>, max: int, key: Key, e: Option<ProgramError>) {
    exists v :: IsVerdict(rs, |rs|, Capped(max), key, v) && Names(v, e)
  }

  // The loop and what follows it.
  method ParseEntries(rs: seq<FeeRecipient>, max: int, key: Key) returns (e: Option<ProgramError>)
    requires OnWire(rs) && 0 <= max < 0x1_0000 && |rs| <= MAX_FEE_RECIPIENTS
    ensures Parsed(rs, max, key, e)
  {
    var sum, treasurySeen := 0, false;
    for i := 0 to |rs|
      invariant forall j :: 0 <= j < i ==> EntryOk(rs, key, j)
      invariant sum == SumBps(rs[..i]) <= ABSOLUTE_FEE_BPS_CAP * i
      invariant treasurySeen <==> TreasuryBefore(rs, i)
    {
      e := CheckEntry(rs, i, treasurySeen, key);
      if e.Some? {
        ghost var v :| EntryFault(rs, key, i, v) && Names(v, e);
        FaultDecides(rs, |rs|, Capped(max), key, i, v);
        return;
      }
      treasurySeen := treasurySeen || rs[i].kind == TREASURY;
      // checked_add on 32 bits does not fail.
      assert sum + rs[i].bps < 0x1_0000_0000;
      sum := sum + rs[i].bps;
      SumBpsStep(rs, i);
    }
    assert rs[..|rs|] == rs;
    if sum > ABSOLUTE_FEE_BPS_CAP {
      assert IsVerdict(rs, |rs|, Capped(max), key, SumOver10k(sum));
      return Some(FeeBpsSumOver10k);
    }
    if sum > max {
      assert IsVerdict(rs, |rs|, Capped(max), key, SumExceedsMax(sum, max));
      return Some(FeeBpsExceedsCap);
    }
    assert IsVerdict(rs, |rs|, Capped(max), key, Valid);
    e := None;
  }

  /**
   parse_and_validate, on the entries that the buffer has room for. On a list that fits, the error is the
   one that the validator's verdict names. The program does not check the maximum against the cap; above
   the cap it has no effect.
   */
  method ParseAndValidate(wire: seq<FeeRecipient>, count: nat, max: int, key: Key) returns (e: Option<ProgramError>)
    requires OnWire(wire) && 0 <= max < 0x1_0000
    ensures count > MAX_FEE_RECIPIENTS ==> e == Some(FeeRecipientArrayTooLong)
    ensures |wire| < count <= MAX_FEE_RECIPIENTS ==> e == Some(InvalidInstructionData)
    ensures count <= |wire| && count <= MAX_FEE_RECIPIENTS ==> Parsed(wire[..count], max, key, e)
  {
    if count > MAX_FEE_RECIPIENTS { return Some(FeeRecipientArrayTooLong); }
    if |wire| < count { return Some(InvalidInstructionData); }
    e := ParseEntries(wire[..count], max, key);
  }

  // ---------------------------------------------------------------------------------------------
  // The second step
  // ---------------------------------------------------------------------------------------------

  ghost function Substituted(rs: seq<FeeRecipient>, vault: string): (qs: seq<FeeRecipient>)
    ensures |qs| == |rs|
    ensures forall i :: 0 <= i < |rs| ==>
              qs[i] == if rs[i].kind == TREASURY then rs[i].(destination := vault) else rs[i]
  {
    seq(|rs|, i requires 0 <= i < |rs| => if rs[i].kind == TREASURY then rs[i].(destination := vault) else rs[i])
  }

  method SubstituteTreasuryDestination(entries: array<FeeRecipient>, count: nat, vault: string)
    requires count <= entries.Length
    modifies entries
    ensures entries[..count] == Substituted(old(entries[..count]), vault)
    ensures entries[count..] == old(entries[count..])
  {
    for i := 0 to count
      invariant forall j :: 0 <= j < i ==> entries[j] == Substituted(old(entries[..count]), vault)[j]
      invariant forall j :: i <= j < entries.Length ==> entries[j] == old(entries[j])
    {
      if entries[i].kind == TREASURY {
        entries[i] := entries[i].(destination := vault);
      }
    }
  }

  // ---------------------------------------------------------------------------------------------
  // The third step
  // ---------------------------------------------------------------------------------------------

  ghost predicate HasTreasury(rs: seq<FeeRecipient>) {
    exists i :: 0 <= i < |rs| && rs[i].kind == TREASURY
  }

  ghost predicate OneTreasury(rs: seq<FeeRecipient>) {
    forall i, j :: 0 <= i < j < |rs| ==> !(rs[i].kind == TREASURY && rs[j].kind == TREASURY)
  }

  ghost predicate TreasuryTakes(rs: seq<FeeRecipient>) {
    forall i :: 0 <= i < |rs| && rs[i].kind == TREASURY ==> rs[i].bps != 0
  }

  ghost predicate DistinctDestinations(rs: seq<FeeRecipient>, key: Key) {
    forall i, j :: 0 <= i < j < |rs| ==> key(rs[i].destination) != key(rs[j].destination)
  }

  ghost predicate PostRules(rs: seq<FeeRecipient>, key: Key) {
    HasTreasury(rs) && OneTreasury(rs) && TreasuryTakes(rs) && DistinctDestinations(rs, key)
  }

  // The error for the first rule that is broken.
  ghost predicate BreaksFirst(rs: seq<FeeRecipient>, key: Key, e: Option<ProgramError>) {
    && (e.None? <==> PostRules(rs, key))
    && (e == Some(MissingTreasuryEntry) <==> !HasTreasury(rs))
    && (e == Some(MultipleTreasuryRecipients) <==> !OneTreasury(rs))
    && (e == Some(TreasuryBpsZero) <==> HasTreasury(rs) && OneTreasury(rs) && !TreasuryTakes(rs))
    && (e == Some(FeeRecipientDuplicateDestination)
        <==> HasTreasury(rs) && OneTreasury(rs) && TreasuryTakes(rs) && !DistinctDestinations(rs, key))
  }

  ghost function Treasuries(rs: seq<FeeRecipient>): int {
    Weigh(rs, Indicator((r: FeeRecipient) => r.kind == TREASURY))
  }

  lemma TreasuriesMeaning(rs: seq<FeeRecipient>)
    ensures 0 <= Treasuries(rs)
    ensures Treasuries(rs) == 0 <==> !HasTreasury(rs)
    ensures Treasuries(rs) <= 1 <==> OneTreasury(rs)
  {
    NoneWeighsNothing(rs, (r: FeeRecipient) => r.kind == TREASURY);
    AtMostOne(rs, (r: FeeRecipient) => r.kind == TREASURY);
  }

  lemma TreasuriesStep(rs: seq<FeeRecipient>, i: nat)
    requires i < |rs|
    ensures Treasuries(rs[..i + 1]) == Treasuries(rs[..i]) + if rs[i].kind == TREASURY then 1 else 0
  {
    TakeOneMore(rs, i);
    WeighAppend(rs[..i], rs[i], Indicator((r: FeeRecipient) => r.kind == TREASURY));
  }

  // The counting loop of validate_post_substitution.
  method CountTreasuries(rs: seq<FeeRecipient>) returns (count: int, bps: int)
    ensures count == Treasuries(rs)
    ensures HasTreasury(rs) ==> exists i :: 0 <= i < |rs| && rs[i].kind == TREASURY && rs[i].bps == bps
  {
    count, bps := 0, 0;
    for i := 0 to |rs|
      invariant count == Treasuries(rs[..i])
      invariant forall j :: 0 <= j < i && rs[j].kind == TREASURY ==>
                  exists k :: 0 <= k < i && rs[k].kind == TREASURY && rs[k].bps == bps
    {
      TreasuriesStep(rs, i);
      if rs[i].kind == TREASURY {
        count, bps := count + 1, rs[i].bps;
      }
    }
    assert rs[..|rs|] == rs;
  }

  // Its search for a repeated destination.
  method HasDuplicate(rs: seq<FeeRecipient>, key: Key) returns (found: bool)
    ensures found <==> !DistinctDestinations(rs, key)
  {
    for i := 0 to |rs|
      invariant forall j, k :: 0 <= j < k < i ==> key(rs[j].destination) != key(rs[k].destination)
    {
      found := RepeatsEarlier(rs, i, key);
      if found { return; }
    }
    found := false;
  }

  // validate_post_substitution: the first rule that is broken.
  method ValidatePostSubstitution(rs: seq<FeeRecipient>, key: Key) returns (e: Option<ProgramError>)
    ensures BreaksFirst(rs, key, e)
  {
    TreasuriesMeaning(rs);
    var count, bps := CountTreasuries(rs);
    if count == 0 { return Some(MissingTreasuryEntry); }
    if count > 1 { return Some(MultipleTreasuryRecipients); }
    ghost var i :| 0 <= i < |rs| && rs[i].kind == TREASURY && rs[i].bps == bps;
    assert forall j :: 0 <= j < |rs| && rs[j].kind == TREASURY ==> j == i;
    if bps == 0 { return Some(TreasuryBpsZero); }
    var found := HasDuplicate(rs, key);
    e := if found then Some(FeeRecipientDuplicateDestination) else None;
  }

  // ---------------------------------------------------------------------------------------------
  // The fourth step: the affiliates' token accounts
  // ---------------------------------------------------------------------------------------------

  const TOKEN_ACCOUNT_LEN := 165
  const STATE_OFFSET := 108

  // An account as the caller supplies it: whether the token program owns it, and its data, which cannot be
  // read while another part of the program writes to it.
  datatype Account = Account(address: string, ownedByTokenProgram: bool, data: Option<A.Bytes>)

  // It is the destination itself, and an initialised token account of the mint: 165 bytes, the mint in the
  // first 32, the state in byte 108.
  ghost predicate IsTokenAccount(a: Account, destination: string, mint: A.Pubkey, key: Key) {
    && key(a.address) == key(destination) && a.ownedByTokenProgram && a.data.Some?
    && 165 <= |a.data.value| && a.data.value[108] == 1 && a.data.value[..32] == mint
  }

  // The entries of the kind AffiliateAta, in order.
  ghost function Affiliates(rs: seq<FeeRecipient>): seq<FeeRecipient> {
    if rs == [] then []
    else
      var n := |rs| - 1;
      Affiliates(rs[..n]) + if rs[n].kind == 1 then [rs[n]] else []
  }

  lemma AffiliatesStep(rs: seq<FeeRecipient>, i: nat)
    requires i < |rs|
    ensures Affiliates(rs[..i + 1]) == Affiliates(rs[..i]) + if rs[i].kind == 1 then [rs[i]] else []
  {
    assert rs[..i + 1][..i] == rs[..i];
  }

  lemma {:induction false} AffiliatesPrefix(rs: seq<FeeRecipient>, i: nat)
    requires i <= |rs|
    ensures Affiliates(rs[..i]) <= Affiliates(rs)
    decreases |rs| - i
  {
    if i < |rs| {
      AffiliatesPrefix(rs, i + 1);
      AffiliatesStep(rs, i);
    } else {
      assert rs[..i] == rs;
    }
  }

  // The accounts behind the fixed ones are, in order, those of the affiliates; more may follow.
  ghost predicate AtasSupplied(rs: seq<FeeRecipient>, accounts: seq<Account>, mint: A.Pubkey, key: Key) {
    var affiliates := Affiliates(rs);
    && |affiliates| <= |accounts|
    && forall k :: 0 <= k < |affiliates| ==> IsTokenAccount(accounts[k], affiliates[k].destination, mint, key)
  }

  method CountAffiliates(rs: seq<FeeRecipient>) returns (count: nat)
    ensures count == |Affiliates(rs)|
  {
    count := 0;
    for i := 0 to |rs|
      invariant count == |Affiliates(rs[..i])|
    {
      AffiliatesStep(rs, i);
      if rs[i].kind == AFFILIATE_ATA {
        count := count + 1;
      }
    }
    assert rs[..|rs|] == rs;
  }

  // The checks of one account.
  method CheckAta(a: Account, destination: string, mint: A.Pubkey, key: Key) returns (ok: bool)
    ensures ok <==> IsTokenAccount(a, destination, mint, key)
  {
    if key(a.address) != key(destination) { return false; }
    if !a.ownedByTokenProgram { return false; }
    if a.data.None? { return false; }
    if |a.data.value| < TOKEN_ACCOUNT_LEN { return false; }
    if a.data.value[STATE_OFFSET] != 1 { return false; }
    ok := a.data.value[..32] == mint;
  }

  // validate_affiliate_atas, on as many accounts as there are affiliates.
  method ValidateAffiliateAtas(rs: seq<FeeRecipient>, atas: seq<Account>, mint: A.Pubkey, key: Key)
    returns (e: Option<ProgramError>)
    ensures e.None? <==> AtasSupplied(rs, atas, mint, key)
    ensures e.Some? ==> e == Some(InvalidAffiliateAta)
  {
    var cursor := 0;
    for i := 0 to |rs|
      invariant cursor == |Affiliates(rs[..i])| <= |atas|
      invariant forall k :: 0 <= k < cursor ==> IsTokenAccount(atas[k], Affiliates(rs[..i])[k].destination, mint, key)
    {
      AffiliatesStep(rs, i);
      AffiliatesPrefix(rs, i + 1);
      if rs[i].kind != AFFILIATE_ATA { continue; }
      assert Affiliates(rs)[cursor] == rs[i];
      if cursor >= |atas| { return Some(InvalidAffiliateAta); }
      var ok := CheckAta(atas[cursor], rs[i].destination, mint, key);
      if !ok { return Some(InvalidAffiliateAta); }
      cursor := cursor + 1;
    }
    assert rs[..|rs|] == rs;
    e := None;
  }

  lemma {:induction false} AffiliatesSubstituted(rs: seq<FeeRecipient>, vault: string)
    ensures Affiliates(Substituted(rs, vault)) == Affiliates(rs)
  {
    if rs != [] {
      var n := |rs| - 1;
      AffiliatesSubstituted(rs[..n], vault);
      assert Substituted(rs, vault)[..n] == Substituted(rs[..n], vault);
    }
  }

  // ---------------------------------------------------------------------------------------------
  // The whole check of the Solana program
  // ---------------------------------------------------------------------------------------------

  // What the caller sends: entries, with the number that is to count, or none.
  datatype Request = Explicit(wire: seq<FeeRecipient>, count: nat) | Defaults

  // The template of the configuration: eight slots, and the number in use.
  datatype Template = Template(slots: seq<FeeRecipient>, count: nat)

  // The accounts and settings that a registration refers to.
  datatype Context = Context(max: int, vault: string, mint: A.Pubkey, accounts: seq<Account>)

  // What is checked once the treasury has its vault.
  ghost predicate PassesLate(rs: seq<FeeRecipient>, c: Context, key: Key) {
    PostRules(Substituted(rs, c.vault), key) && AtasSupplied(rs, c.accounts, c.mint, key)
  }

  ghost predicate ProgramAccepts(rs: seq<FeeRecipient>, c: Context, key: Key) {
    Acceptable(rs, |rs|, Capped(c.max), key) && PassesLate(rs, c, key)
  }

  // The error of these checks: first the rules, then whether there are accounts enough, then what they are.
  ghost predicate FailsLate(rs: seq<FeeRecipient>, c: Context, key: Key, e: Option<ProgramError>) {
    var entries := Substituted(rs, c.vault);
    if !PostRules(entries, key) then BreaksFirst(entries, key, e)
    else if |c.accounts| < |Affiliates(rs)| then e == Some(NotEnoughAccountKeys)
    else if !AtasSupplied(rs, c.accounts, c.mint, key) then e == Some(InvalidAffiliateAta)
    else e == None
  }

  lemma ParsedIff(rs: seq<FeeRecipient>, max: int, key: Key, e: Option<ProgramError>)
    requires Parsed(rs, max, key, e)
    ensures e.None? <==> Acceptable(rs, |rs|, Capped(max), key)
  {
    var v :| IsVerdict(rs, |rs|, Capped(max), key, v) && Names(v, e);
    AcceptsIff(rs, |rs|, Capped(max), key, v);
  }

  // Steps two and three, on the entries as they are stored.
  method SubstituteAndValidate(rs: seq<FeeRecipient>, vault: string, key: Key)
    returns (entries: seq<FeeRecipient>, e: Option<ProgramError>)
    ensures entries == Substituted(rs, vault) && BreaksFirst(entries, key, e)
  {
    var stored := new FeeRecipient[|rs|](i requires 0 <= i < |rs| => rs[i]);
    assert stored[..|rs|] == rs;
    SubstituteTreasuryDestination(stored, |rs|, vault);
    entries := stored[..|rs|];
    e := ValidatePostSubstitution(entries, key);
  }

  // Steps two to four.
  method CheckLate(rs: seq<FeeRecipient>, c: Context, key: Key) returns (e: Option<ProgramError>)
    ensures e.None? <==> PassesLate(rs, c, key)
    ensures FailsLate(rs, c, key, e)
  {
    var entries;
    entries, e := SubstituteAndValidate(rs, c.vault, key);
    if e.Some? { return; }
    AffiliatesSubstituted(rs, c.vault);
    var count := CountAffiliates(entries);
    if |c.accounts| < count { return Some(NotEnoughAccountKeys); }
    if count > 0 {
      e := ValidateAffiliateAtas(entries, c.accounts[..count], c.mint, key);
    }
  }

  // register_endpoint: the recipients of the request, or the configuration's, which are not parsed again. The
  // error is that of the first check that fails.
  method RegisterRecipients(request: Request, template: Template, c: Context, key: Key)
    returns (e: Option<ProgramError>)
    requires 0 <= c.max < 0x1_0000 && |template.slots| == MAX_FEE_RECIPIENTS
    requires request.Explicit? ==> OnWire(request.wire)
    ensures request.Explicit? ==>
              (e.None? <==> request.count <= |request.wire| && ProgramAccepts(request.wire[..request.count], c, key))
    ensures request.Defaults? ==>
              (e.None? <==> template.count <= MAX_FEE_RECIPIENTS
                            && PassesLate(template.slots[..template.count], c, key))
    ensures request.Explicit? && |request.wire| < request.count ==> e == Some(InvalidInstructionData)
    ensures request.Explicit? && 8 < request.count <= |request.wire| ==> e == Some(FeeRecipientArrayTooLong)
    ensures request.Explicit? && request.count <= |request.wire| && request.count <= 8 ==>
              var rs := request.wire[..request.count];
              if Acceptable(rs, |rs|, Capped(c.max), key) then FailsLate(rs, c, key, e) else Parsed(rs, c.max, key, e)
    ensures request.Defaults? ==> if 8 < template.count then e == Some(FeeRecipientArrayTooLong)
                                  else FailsLate(template.slots[..template.count], c, key, e)
  {
    var rs;
    if request.Explicit? {
      if |request.wire| < request.count { return Some(InvalidInstructionData); }
      rs := request.wire[..request.count];
      e := ParseAndValidate(request.wire, request.count, c.max, key);
      if request.count <= MAX_FEE_RECIPIENTS {
        ParsedIff(rs, c.max, key, e);
      }
      if e.Some? { return; }
    } else {
      if template.count > MAX_FEE_RECIPIENTS { return Some(FeeRecipientArrayTooLong); }
      rs := template.slots[..template.count];
    }
    e := CheckLate(rs, c, key);
  }

  // ---------------------------------------------------------------------------------------------
  // The whole check of the EVM contract
  // ---------------------------------------------------------------------------------------------

  ghost predicate AffiliatesSet(rs: seq<FeeRecipient>, zero: string, key: Key) {
    forall i :: 0 <= i < |rs| && rs[i].kind != TREASURY ==> key(rs[i].destination) != key(zero)
  }

  ghost predicate ContractAccepts(rs: seq<FeeRecipient>, max: int, vault: string, zero: string, key: Key) {
    && Acceptable(rs, |rs|, Capped(max), key) && PostRules(Substituted(rs, vault), key)
    && AffiliatesSet(rs, zero, key)
  }

  // FeeValidation.validate, on the eight slots of the call.
  method ValidateContract(slots: seq<FeeRecipient>, count: nat, max: int, vault: string, zero: string, key: Key)
    returns (e: Option<ProgramError>)
    requires |slots| == MAX_FEE_RECIPIENTS && OnWire(slots) && 0 <= max < 0x1_0000
    ensures e.None? <==> count <= MAX_FEE_RECIPIENTS && ContractAccepts(slots[..count], max, vault, zero, key)
    ensures 8 < count ==> e == Some(FeeRecipientArrayTooLong)
    ensures count <= 8 ==>
              var rs := slots[..count];
              if !Acceptable(rs, count, Capped(max), key) then Parsed(rs, max, key, e)
              else if !PostRules(Substituted(rs, vault), key) then BreaksFirst(Substituted(rs, vault), key, e)
              else e == if AffiliatesSet(rs, zero, key) then None else Some(InvalidAffiliateAta)
  {
    e := ParseAndValidate(slots, count, max, key);
    if count > MAX_FEE_RECIPIENTS { return; }
    var rs := slots[..count];
    ParsedIff(rs, max, key, e);
    if e.Some? { return; }
    var entries;
    entries, e := SubstituteAndValidate(rs, vault, key);
    if e.Some? { return; }
    for i := 0 to |rs|
      invariant forall j :: 0 <= j < i && rs[j].kind != TREASURY ==> key(rs[j].destination) != key(zero)
    {
      if entries[i].kind != TREASURY && key(entries[i].destination) == key(zero) { return Some(InvalidAffiliateAta); }
    }
  }

  // ---------------------------------------------------------------------------------------------
  // What the validators' verdict says about the programs
  // ---------------------------------------------------------------------------------------------

  // The treasury takes a share, and no affiliate is paid into the treasury's vault.
  ghost predicate TreasuryPaidApart(rs: seq<FeeRecipient>, vault: string, key: Key) {
    && (exists i :: 0 <= i < |rs| && rs[i].kind == 0 && rs[i].bps != 0)
    && forall i :: 0 <= i < |rs| && rs[i].kind != 0 ==> key(rs[i].destination) != key(vault)
  }

  lemma PostRulesNeed(rs: seq<FeeRecipient>, vault: string, key: Key)
    requires PostRules(Substituted(rs, vault), key)
    ensures TreasuryPaidApart(rs, vault, key)
  {
    var qs := Substituted(rs, vault);
    var t :| 0 <= t < |qs| && qs[t].kind == TREASURY;
    assert rs[t].kind == TREASURY && rs[t].bps != 0 && qs[t].destination == vault;
    forall i | 0 <= i < |rs| && rs[i].kind != TREASURY
      ensures key(rs[i].destination) != key(vault)
    {
      assert i < t || t < i;
    }
  }

  lemma PostRulesFollow(rs: seq<FeeRecipient>, count: int, max: int, vault: string, key: Key)
    requires Acceptable(rs, count, max, key) && TreasuryPaidApart(rs, vault, key)
    ensures PostRules(Substituted(rs, vault), key)
  {
    var qs := Substituted(rs, vault);
    var t :| 0 <= t < |rs| && rs[t].kind == TREASURY && rs[t].bps != 0;
    assert qs[t].kind == TREASURY;
    assert forall i :: 0 <= i < |rs| && i != t ==> rs[i].kind != TREASURY;
    assert OneTreasury(qs) && TreasuryTakes(qs);
    forall i, j | 0 <= i < j < |rs|
      ensures key(qs[i].destination) != key(qs[j].destination)
    {
      assert key(rs[i].destination) != key(rs[j].destination);
    }
  }

  lemma PostRulesIff(rs: seq<FeeRecipient>, max: int, vault: string, key: Key, v: Verdict)
    requires IsVerdict(rs, |rs|, max, key, v)
    ensures Acceptable(rs, |rs|, Capped(max), key) && PostRules(Substituted(rs, vault), key)
            && max <= ABSOLUTE_FEE_BPS_CAP
       <==> v.Valid? && TreasuryPaidApart(rs, vault, key)
  {
    AcceptsIff(rs, |rs|, max, key, v);
    if PostRules(Substituted(rs, vault), key) {
      PostRulesNeed(rs, vault, key);
    }
    if v.Valid? && TreasuryPaidApart(rs, vault, key) {
      PostRulesFollow(rs, |rs|, max, vault, key);
    }
  }

  /**
   With a maximum up to the cap, which is all that a configuration can hold, the Solana program accepts
   exactly the lists that the validator accepts, whose treasury takes a share and is paid apart from the
   affiliates, and whose affiliates' token accounts are supplied, in order.
   */
  lemma PreflightIff(rs: seq<FeeRecipient>, c: Context, key: Key, v: Verdict)
    requires IsVerdict(rs, |rs|, c.max, key, v)
    ensures ProgramAccepts(rs, c, key) && c.max <= ABSOLUTE_FEE_BPS_CAP
       <==> v.Valid? && TreasuryPaidApart(rs, c.vault, key) && AtasSupplied(rs, c.accounts, c.mint, key)
  {
    PostRulesIff(rs, c.max, c.vault, key, v);
  }

  /**
   The EVM contract accepts exactly the lists that the validator accepts, whose treasury takes a share and
   is paid apart from the affiliates, and none of whose affiliates is the zero address.
   */
  lemma ContractPreflightIff(rs: seq<FeeRecipient>, max: int, vault: string, zero: string, key: Key, v: Verdict)
    requires IsVerdict(rs, |rs|, max, key, v)
    ensures ContractAccepts(rs, max, vault, zero, key) && max <= ABSOLUTE_FEE_BPS_CAP
       <==> v.Valid? && TreasuryPaidApart(rs, vault, key) && AffiliatesSet(rs, zero, key)
  {
    PostRulesIff(rs, max, vault, key, v);
  }

  // A treasury's 10 % and an affiliate's 5 %: valid if the destinations differ.
  function Usual(treasury: string, affiliate: string): seq<FeeRecipient> {
    [FeeRecipient(TREASURY, treasury, 1000), FeeRecipient(AFFILIATE_ATA, affiliate, 500)]
  }

  lemma UsualIsValid(treasury: string, affiliate: string, max: int, key: Key)
    requires 1500 <= max <= ABSOLUTE_FEE_BPS_CAP && key(treasury) != key(affiliate)
    ensures var rs := Usual(treasury, affiliate); IsVerdict(rs, |rs|, max, key, Valid)
  {
    var rs := Usual(treasury, affiliate);
    assert SumBps(rs) == 1500 by {
      assert rs[..0] == [] && rs[..2] == rs;
      SumBpsStep(rs, 0);
      SumBpsStep(rs, 1);
    }
    assert forall i :: 0 <= i < |rs| ==> EntryOk(rs, key, i);
  }

  /** Lists that the validators accept and both programs reject, for every destination x but the vault. */
  lemma AcceptedButRejected(x: string, zero: string, c: Context, key: Key)
    requires 1500 <= c.max <= ABSOLUTE_FEE_BPS_CAP && key(x) != key(c.vault)
    ensures forall rs :: rs == [] || rs == [FeeRecipient(TREASURY, x, 0)] || rs == Usual(x, c.vault) ==>
              && IsVerdict(rs, |rs|, c.max, key, Valid)
              && !ProgramAccepts(rs, c, key) && !ContractAccepts(rs, c.max, c.vault, zero, key)
  {
    var none: seq<FeeRecipient> := [];
    var free, shared := [FeeRecipient(TREASURY, x, 0)], Usual(x, c.vault);
    assert SumBps(none) == SumBps(free) == 0 by {
      assert free[..1] == free && free[..0] == [];
      SumBpsStep(free, 0);
    }
    assert forall i :: 0 <= i < |free| ==> EntryOk(free, key, i);
    UsualIsValid(x, c.vault, c.max, key);
    assert !TreasuryPaidApart(none, c.vault, key) && !TreasuryPaidApart(free, c.vault, key);
    assert shared[1].kind != TREASURY && !TreasuryPaidApart(shared, c.vault, key);
    forall rs | rs == none || rs == free || rs == shared
      ensures !ProgramAccepts(rs, c, key) && !ContractAccepts(rs, c.max, c.vault, zero, key)
    {
      PreflightIff(rs, c, key, Valid);
      ContractPreflightIff(rs, c.max, c.vault, zero, key, Valid);
    }
  }

  lemma UsualAffiliates(x: string, y: string)
    ensures Affiliates(Usual(x, y)) == [FeeRecipient(AFFILIATE_ATA, y, 500)]
  {
    var rs := Usual(x, y);
    assert rs[..0] == [] && rs[..2] == rs;
    AffiliatesStep(rs, 0);
    AffiliatesStep(rs, 1);
  }

  lemma UsualAtas(x: string, y: string, accounts: seq<Account>, mint: A.Pubkey, key: Key)
    ensures AtasSupplied(Usual(x, y), accounts, mint, key)
       <==> accounts != [] && IsTokenAccount(accounts[0], y, mint, key)
  {
    UsualAffiliates(x, y);
  }

  lemma UsualApart(x: string, y: string, vault: string, zero: string, key: Key)
    ensures TreasuryPaidApart(Usual(x, y), vault, key) <==> key(y) != key(vault)
    ensures AffiliatesSet(Usual(x, y), zero, key) <==> key(y) != key(zero)
  {
    var rs := Usual(x, y);
    assert rs[0].kind == TREASURY && rs[0].bps != 0 && rs[1].kind != TREASURY && rs[1].destination == y;
  }

  /**
   A list with one affiliate y that is valid and pays the treasury apart: the EVM contract rejects it if y is
   the zero address, and the Solana program if the first account supplied is not a token account of y.
   */
  lemma AffiliateRejected(x: string, y: string, zero: string, c: Context, key: Key)
    requires 1500 <= c.max <= ABSOLUTE_FEE_BPS_CAP && key(x) != key(y) && key(y) != key(c.vault)
    ensures var rs := Usual(x, y);
            && IsVerdict(rs, |rs|, c.max, key, Valid) && TreasuryPaidApart(rs, c.vault, key)
            && (ContractAccepts(rs, c.max, c.vault, zero, key) <==> key(y) != key(zero))
            && (ProgramAccepts(rs, c, key) <==> c.accounts != [] && IsTokenAccount(c.accounts[0], y, c.mint, key))
  {
    var rs := Usual(x, y);
    UsualIsValid(x, y, c.max, key);
    UsualApart(x, y, c.vault, zero, key);
    UsualAtas(x, y, c.accounts, c.mint, key);
    PreflightIff(rs, c, key, Valid);
    ContractPreflightIff(rs, c.max, c.vault, zero, key, Valid);
  }
}
