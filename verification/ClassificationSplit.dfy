/**
 The migration that splits the classification 'error' into 'client_error' and 'server_error', and its
 way back: ordered UPDATE statements between dropping and re-adding two CHECK constraints.
 */
module ClassificationSplit {

  import opened Wrappers

  // A row of call_records and one of claims, with the columns that matter and the others.
  datatype CallRow = CallRow(statusCode: int, classification: string, rest: string)
  datatype ClaimRow = ClaimRow(triggerType: string, rest: string)

  // The tables, and the sets that the two CHECK constraints allow (None: no constraint).
  datatype Snapshot = Snapshot(
    calls: map<string, CallRow>, claims: map<string, ClaimRow>,
    callsCheck: Option<set<string>>, claimsCheck: Option<set<string>>)

  const NEW_CALLS: set<string> := {"success", "timeout", "client_error", "server_error", "schema_mismatch"}
  const NEW_CLAIMS: set<string> := {"timeout", "server_error", "schema_mismatch", "latency_sla"}
  const OLD_CALLS: set<string> := {"success", "timeout", "error", "schema_mismatch"}
  const OLD_CLAIMS: set<string> := {"timeout", "error", "schema_mismatch", "latency_sla"}

  predicate CallsIn(calls: map<string, CallRow>, allowed: set<string>) {
    forall k :: k in calls ==> calls[k].classification in allowed
  }

  predicate ClaimsIn(claims: map<string, ClaimRow>, allowed: set<string>) {
    forall k :: k in claims ==> claims[k].triggerType in allowed
  }

  // A database before the migration, and one after it.
  ghost predicate IsLegacy(s: Snapshot) {
    && CallsIn(s.calls, OLD_CALLS) && ClaimsIn(s.claims, OLD_CLAIMS)
    && s.callsCheck == Some(OLD_CALLS) && s.claimsCheck == Some(OLD_CLAIMS)
  }

  ghost predicate IsNew(s: Snapshot) {
    && CallsIn(s.calls, NEW_CALLS) && ClaimsIn(s.claims, NEW_CLAIMS)
    && s.callsCheck == Some(NEW_CALLS) && s.claimsCheck == Some(NEW_CLAIMS)
  }

  predicate IsClientStatus(statusCode: int) {
    400 <= statusCode <= 499
  }

  // ---------------------------------------------------------------------------------------------
  // Each row on its own
  // ---------------------------------------------------------------------------------------------

  ghost function UpCall(r: CallRow): CallRow {
    if r.classification != "error" then r
    else if IsClientStatus(r.statusCode) then r.(classification := "client_error")
    else r.(classification := "server_error")
  }

  ghost function UpClaim(r: ClaimRow): ClaimRow {
    if r.triggerType == "error" then r.(triggerType := "server_error") else r
  }

  ghost function DownCall(r: CallRow): CallRow {
    if r.classification in {"client_error", "server_error"} then r.(classification := "error") else r
  }

  ghost function DownClaim(r: ClaimRow): ClaimRow {
    if r.triggerType == "server_error" then r.(triggerType := "error") else r
  }

  ghost function UpState(s: Snapshot): Snapshot {
    Snapshot(map k | k in s.calls :: UpCall(s.calls[k]), map k | k in s.claims :: UpClaim(s.claims[k]),
          Some(NEW_CALLS), Some(NEW_CLAIMS))
  }

  ghost function DownState(s: Snapshot): Snapshot {
    Snapshot(map k | k in s.calls :: DownCall(s.calls[k]), map k | k in s.claims :: DownClaim(s.claims[k]),
          Some(OLD_CALLS), Some(OLD_CLAIMS))
  }

  // ---------------------------------------------------------------------------------------------
  // The statements
  // ---------------------------------------------------------------------------------------------

  // UPDATE call_records SET classification = value WHERE classification IN from AND ...
  function Reclassify(calls: map<string, CallRow>, from: set<string>, clientOnly: bool, value: string): map<string,
                      CallRow> {
    map k | k in calls ::
      if calls[k].classification in from && (clientOnly ==> IsClientStatus(calls[k].statusCode))
      then calls[k].(classification := value) else calls[k]
  }

  // UPDATE claims SET trigger_type = value WHERE trigger_type = from
  function Retrigger(claims: map<string, ClaimRow>, from: string, value: string): map<string, ClaimRow> {
    map k | k in claims :: if claims[k].triggerType == from then claims[k].(triggerType := value) else claims[k]
  }

  /** The CHECKs can be added exactly if no row has a value that neither schema knows. */
  lemma UpFits(s: Snapshot)
    ensures CallsIn(UpState(s).calls, NEW_CALLS) <==> CallsIn(s.calls, NEW_CALLS + {"error"})
    ensures ClaimsIn(UpState(s).claims, NEW_CLAIMS) <==> ClaimsIn(s.claims, NEW_CLAIMS + {"error"})
    ensures IsLegacy(s) || IsNew(s) ==> IsNew(UpState(s))
  {
    var t := UpState(s);
    var calls, claims := NEW_CALLS + {"error"}, NEW_CLAIMS + {"error"};
    assert forall k :: k in s.calls ==>
      (t.calls[k].classification in NEW_CALLS <==> s.calls[k].classification in calls);
    assert forall k :: k in s.claims ==> (t.claims[k].triggerType in NEW_CLAIMS <==> s.claims[k].triggerType in claims);
  }

  lemma DownFits(s: Snapshot)
    ensures CallsIn(DownState(s).calls, OLD_CALLS) <==> CallsIn(s.calls, OLD_CALLS + {"client_error", "server_error"})
    ensures ClaimsIn(DownState(s).claims, OLD_CLAIMS) <==> ClaimsIn(s.claims, OLD_CLAIMS + {"server_error"})
    ensures IsLegacy(s) || IsNew(s) ==> IsLegacy(DownState(s))
  {
    var t := DownState(s);
    var calls, claims := OLD_CALLS + {"client_error", "server_error"}, OLD_CLAIMS + {"server_error"};
    assert forall k :: k in s.calls ==>
      (t.calls[k].classification in OLD_CALLS <==> s.calls[k].classification in calls);
    assert forall k :: k in s.claims ==> (t.claims[k].triggerType in OLD_CLAIMS <==> s.claims[k].triggerType in claims);
  }

  class Database {
    var calls: map<string, CallRow>
    var claims: map<string, ClaimRow>
    var callsCheck: Option<set<string>>
    var claimsCheck: Option<set<string>>

    ghost function State(): Snapshot
      reads this
    {
      Snapshot(calls, claims, callsCheck, claimsCheck)
    }

    // ADD CONSTRAINT ... CHECK, on both tables; it fails when a row violates it.
    method AddChecks(callsAllowed: set<string>, claimsAllowed: set<string>) returns (ok: bool)
      requires callsCheck.None? && claimsCheck.None?
      modifies this
      ensures ok <==> CallsIn(old(calls), callsAllowed) && ClaimsIn(old(claims), claimsAllowed)
      ensures calls == old(calls) && claims == old(claims)
      ensures ok ==> callsCheck == Some(callsAllowed) && claimsCheck == Some(claimsAllowed)
    {
      if !CallsIn(calls, callsAllowed) { return false; }
      callsCheck := Some(callsAllowed);
      if !ClaimsIn(claims, claimsAllowed) { return false; }
      claimsCheck := Some(claimsAllowed);
      ok := true;
    }

    // ok is false when a constraint cannot be added.
    method Up() returns (ok: bool)
      modifies this
      ensures ok <==> var up := UpState(old(State())); CallsIn(up.calls, NEW_CALLS) && ClaimsIn(up.claims, NEW_CLAIMS)
      ensures ok ==> State() == UpState(old(State()))
    {
      callsCheck, claimsCheck := None, None;
      calls := Reclassify(calls, {"error"}, true, "client_error");
      calls := Reclassify(calls, {"error"}, false, "server_error");
      claims := Retrigger(claims, "error", "server_error");
      assert calls == UpState(old(State())).calls && claims == UpState(old(State())).claims;
      ok := AddChecks(NEW_CALLS, NEW_CLAIMS);
    }

    method Down() returns (ok: bool)
      modifies this
      ensures ok <==>
                var down := DownState(old(State())); CallsIn(down.calls, OLD_CALLS) && ClaimsIn(down.claims, OLD_CLAIMS)
      ensures ok ==> State() == DownState(old(State()))
    {
      callsCheck, claimsCheck := None, None;
      calls := Reclassify(calls, {"client_error", "server_error"}, false, "error");
      claims := Retrigger(claims, "server_error", "error");
      assert calls == DownState(old(State())).calls && claims == DownState(old(State())).claims;
      ok := AddChecks(OLD_CALLS, OLD_CLAIMS);
    }

    // The command line runs one of the two in a transaction.
    method Run(isDown: bool) returns (ok: bool)
      modifies this
      ensures ok ==> State() == if isDown then DownState(old(State())) else UpState(old(State()))
      ensures !ok ==> State() == old(State())
      ensures old(IsLegacy(State())) && !isDown ==> ok
      ensures old(IsNew(State())) ==> ok
    {
      var c, l, cc, lc := calls, claims, callsCheck, claimsCheck;
      ghost var s := State();
      UpFits(s);
      DownFits(s);
      if isDown { ok := Down(); } else { ok := Up(); }
      if !ok {
        calls, claims, callsCheck, claimsCheck := c, l, cc, lc;
      }
    }
  }

  // ---------------------------------------------------------------------------------------------
  // Laws
  // ---------------------------------------------------------------------------------------------

  /** What going up does to a row, and to nothing but its class: 4xx is the client's error. */
  lemma UpMeaning(s: Snapshot)
    ensures UpState(s).calls.Keys == s.calls.Keys && UpState(s).claims.Keys == s.claims.Keys
    ensures forall k :: k in s.calls ==>
              var r, up := s.calls[k], UpState(s).calls[k];
              && up == r.(classification := up.classification)
              && (r.classification != "error" ==> up == r)
              && (r.classification == "error" && 400 <= r.statusCode < 500 ==> up.classification == "client_error")
              && (r.classification == "error" && !(400 <= r.statusCode < 500) ==> up.classification == "server_error")
    ensures forall k :: k in s.claims ==>
              var r, up := s.claims[k], UpState(s).claims[k];
              up == if r.triggerType == "error" then ClaimRow("server_error", r.rest) else r
    ensures UpState(s).callsCheck
         == Some({"success", "timeout", "client_error", "server_error", "schema_mismatch"})
    ensures UpState(s).claimsCheck == Some({"timeout", "server_error", "schema_mismatch", "latency_sla"})
  {
  }

  /** What going down does. */
  lemma DownMeaning(s: Snapshot)
    ensures DownState(s).calls.Keys == s.calls.Keys && DownState(s).claims.Keys == s.claims.Keys
    ensures forall k :: k in s.calls ==>
              var r, down := s.calls[k], DownState(s).calls[k];
              down == if r.classification == "client_error" || r.classification == "server_error"
                      then CallRow(r.statusCode, "error", r.rest) else r
    ensures forall k :: k in s.claims ==>
              var r, down := s.claims[k], DownState(s).claims[k];
              down == if r.triggerType == "server_error" then ClaimRow("error", r.rest) else r
    ensures DownState(s).callsCheck == Some({"success", "timeout", "error", "schema_mismatch"})
    ensures DownState(s).claimsCheck == Some({"timeout", "error", "schema_mismatch", "latency_sla"})
  {
  }

  /** Going up and down again restores every legacy database, constraints included. */
  lemma DownUndoesUp(s: Snapshot)
    requires IsLegacy(s)
    ensures DownState(UpState(s)) == s
  {
    var t := DownState(UpState(s));
    assert t.calls == s.calls;
    assert t.claims == s.claims;
  }

  /** Going up twice is going up once, and so is going up, down and up from a legacy database. */
  lemma UpIsIdempotent(s: Snapshot)
    ensures UpState(UpState(s)) == UpState(s)
    ensures IsLegacy(s) ==> UpState(DownState(UpState(s))) == UpState(s)
  {
    assert UpState(UpState(s)).calls == UpState(s).calls;
    assert UpState(UpState(s)).claims == UpState(s).claims;
    if IsLegacy(s) {
      DownUndoesUp(s);
    }
  }

  // The classification of a split error is the one that its status code gives.
  ghost predicate AgreesWithStatus(r: CallRow) {
    && (r.classification == "client_error" ==> 400 <= r.statusCode < 500)
    && (r.classification == "server_error" ==> r.statusCode < 400 || 500 <= r.statusCode)
  }

  /**
   Going down and up again restores a new database exactly if every split error agrees with its status
   code; claims come back in any case.
   */
  lemma UpUndoesDownIff(t: Snapshot)
    requires IsNew(t)
    ensures UpState(DownState(t)).claims == t.claims
    ensures UpState(DownState(t)) == t <==> forall k :: k in t.calls ==> AgreesWithStatus(t.calls[k])
  {
    var back := UpState(DownState(t));
    assert back.claims == t.claims;
    forall k | k in t.calls
      ensures back.calls[k] == t.calls[k] <==> AgreesWithStatus(t.calls[k])
    {
      assert t.calls[k].classification in NEW_CALLS;
    }
    assert back.calls == t.calls <==> forall k :: k in t.calls ==> back.calls[k] == t.calls[k];
  }
}
