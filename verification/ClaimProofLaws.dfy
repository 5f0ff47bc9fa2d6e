/**
 The store's answers from the history of its answers alone: the last proof a
 device had admitted, who reserved it since, and when it was committed.
 */
module ClaimProofLaws {
  import opened Basics
  import opened ClaimProofStore

  /** The store admits the call's registration of a proof for the device. */
  predicate AdmitsProof(t: Trace, c: Call, device: string) {
    c.action.Registers? && Admits(t, c, device, Lower(c.action.digest), true)
  }

  /** The store reserves the device's proof for the call. */
  predicate ReservesProof(t: Trace, c: Call, sha256: string -> string, device: string) {
    && Possible(t, c) && c.action.ReservesWith? && c.action.device == device
    && Reserves(t.store, device, c.action.nonce, sha256(c.action.nonce), c.at)
  }

  /** The store commits the device's proof for the call. */
  predicate CommitsProof(t: Trace, c: Call, device: string) {
    Possible(t, c) && CommitsNow(t, c) && c.action.device == device
  }

  /** The latest registration admitted for the device. */
  function LastAdmitted(t: Trace, calls: seq<Call>, sha256: string -> string, device: string): (last: Option<Call>)
    ensures last.Some? ==> last.value.action.Registers?
  {
    if calls == [] then None
    else
      var earlier, c := calls[..|calls| - 1], calls[|calls| - 1];
      if AdmitsProof(Run(t, earlier, sha256), c, device) then Some(c) else LastAdmitted(t, earlier, sha256, device)
  }

  /** That proof was committed since. */
  predicate CommittedSince(t: Trace, calls: seq<Call>, sha256: string -> string, device: string) {
    calls != [] &&
    var earlier, c := calls[..|calls| - 1], calls[|calls| - 1];
    var before := Run(t, earlier, sha256);
    !AdmitsProof(before, c, device) && (CommitsProof(before, c, device) || CommittedSince(t, earlier, sha256, device))
  }

  /** Who reserved that proof last and has not released it. */
  function HolderSince(t: Trace, calls: seq<Call>, sha256: string -> string, device: string): Option<string> {
    if calls == [] then None
    else
      var earlier, c := calls[..|calls| - 1], calls[|calls| - 1];
      var before, holder := Run(t, earlier, sha256), HolderSince(t, earlier, sha256, device);
      if AdmitsProof(before, c, device) then None
      else if ReservesProof(before, c, sha256, device) then Some(c.action.id)
      else if Possible(before, c) && holder.Some? && c.action == Releases(device, holder.value) then None
      else holder
  }

  /** Committed less than two minutes ago. */
  ghost predicate RecentlyCommitted(log: seq<Commitment>, device: string, digest: string, at: Time) {
    exists c :: c in log && c.device == device && c.digest == digest && at < c.at + 120 * SECOND
  }

  /** The device's last proof is still there: at most two minutes old and not committed. */
  predicate StillThere(t: Trace, calls: seq<Call>, sha256: string -> string, device: string, at: Time) {
    var last := LastAdmitted(t, calls, sha256, device);
    last.Some? && at < last.value.at + 120 * SECOND && !CommittedSince(t, calls, sha256, device)
  }

  // ---- the invariant ---------------------------------------------------------

  /** The proof stored for a device is its last one, held by who reserved it since. */
  ghost predicate Reflects(t: Trace, last: Option<Call>, committed: bool, holder: Option<string>, device: string) {
    && (last.Some? ==> last.value.action.Registers? && last.value.at <= t.latest)
    && (device in t.store.proofs ==>
          && last.Some? && !committed
          && t.store.proofs[device]
             == Proof(Lower(last.value.action.digest), last.value.action.mqttDeviceId, last.value.at + CLAIM_PROOF_TTL,
                      holder, if holder.Some? then last.value.at + CLAIM_PROOF_TTL else 0))
    && (last.Some? && !committed && device !in t.store.proofs ==> last.value.at + CLAIM_PROOF_TTL <= t.latest)
  }

  /** Whatever is remembered as consumed was committed, and is forgotten no later than its commit allows. */
  ghost predicate ConsumedAreCommitted(t: Trace) {
    forall k :: k in t.store.consumed ==>
      exists c :: c in t.log && (c.device, c.digest) == k && t.store.consumed[k] == c.at + CLAIM_PROOF_TTL
  }

  lemma StepReflects(
    t: Trace, c: Call, sha256: string -> string, device: string,
    last: Option<Call>, committed: bool, holder: Option<string>)
    requires Reflects(t, last, committed, holder, device) && Possible(t, c)
    ensures var admits := AdmitsProof(t, c, device);
            Reflects(Next(t, c, sha256),
                     if admits then Some(c) else last,
                     !admits && (CommitsProof(t, c, device) || committed),
                     if admits then None
                     else if ReservesProof(t, c, sha256, device) then Some(c.action.id)
                     else if holder.Some? && c.action == Releases(device, holder.value) then None
                     else holder,
                     device)
  {
  }

  lemma {:induction false} RunReflects(now: Time, calls: seq<Call>, sha256: string -> string, device: string)
    ensures var t := Start(now);
            Reflects(Run(t, calls, sha256), LastAdmitted(t, calls, sha256, device),
                     CommittedSince(t, calls, sha256, device), HolderSince(t, calls, sha256, device), device)
  {
    if calls != [] {
      var t, earlier, c := Start(now), calls[..|calls| - 1], calls[|calls| - 1];
      RunReflects(now, earlier, sha256, device);
      var before := Run(t, earlier, sha256);
      if Possible(before, c) {
        StepReflects(before, c, sha256, device, LastAdmitted(t, earlier, sha256, device),
                     CommittedSince(t, earlier, sha256, device), HolderSince(t, earlier, sha256, device));
      }
    }
  }

  lemma {:induction false} RunRemembersCommits(now: Time, calls: seq<Call>, sha256: string -> string)
    ensures ConsumedAreCommitted(Run(Start(now), calls, sha256))
  {
    if calls != [] {
      var earlier, c := calls[..|calls| - 1], calls[|calls| - 1];
      RunRemembersCommits(now, earlier, sha256);
      var before := Run(Start(now), earlier, sha256);
      if Possible(before, c) { StepRemembersCommits(before, c, sha256); }
    }
  }

  lemma StepRemembersCommits(t: Trace, c: Call, sha256: string -> string)
    requires ConsumedAreCommitted(t)
    ensures ConsumedAreCommitted(Next(t, c, sha256))
  {
    var after := Next(t, c, sha256);
    forall k | k in after.store.consumed
      ensures exists m ::
                m in after.log && (m.device, m.digest) == k && after.store.consumed[k] == m.at + CLAIM_PROOF_TTL
    {
      if CommitsNow(t, c) && k == (c.action.device, t.store.proofs[c.action.device].digest) {
        var m := Commitment(c.action.device, t.store.proofs[c.action.device].digest, c.action.id, c.at);
        assert after.log[|t.log|] == m;
      } else {
        var m :| m in t.log && (m.device, m.digest) == k && t.store.consumed[k] == m.at + CLAIM_PROOF_TTL;
        assert m in after.log;
      }
    }
  }

  // ---- the answers -----------------------------------------------------------

  /** A nonce reserves exactly the last admitted proof, while it is there and nobody holds it. */
  lemma ReservedIff(now: Time, calls: seq<Call>, sha256: string -> string, device: string, nonce: string, at: Time)
    requires Run(Start(now), calls, sha256).latest <= at
    ensures Reserves(Run(Start(now), calls, sha256).store, device, nonce, sha256(nonce), at)
       <==> && |nonce| == 32 && (forall c :: c in nonce ==> '0' <= c <= '9' || 'A' <= c <= 'F')
            && StillThere(Start(now), calls, sha256, device, at)
            && Lower(LastAdmitted(Start(now), calls, sha256, device).value.action.digest) == sha256(nonce)
            && HolderSince(Start(now), calls, sha256, device).None?
  {
    RunReflects(now, calls, sha256, device);
    NonceAlphabet(nonce);
  }

  lemma NonceAlphabet(nonce: string)
    ensures WellFormedNonce(nonce) <==> |nonce| == 32 && forall c :: c in nonce ==> '0' <= c <= '9' || 'A' <= c <= 'F'
  {
    forall c: char
      ensures c in NONCE_ALPHABET <==> '0' <= c <= '9' || 'A' <= c <= 'F'
    {
      HexDigit(c);
    }
  }

  lemma HexDigit(c: char)
    ensures c in NONCE_ALPHABET <==> '0' <= c <= '9' || 'A' <= c <= 'F'
  {
    if '0' <= c <= '9' {
      assert NONCE_ALPHABET[c as int - '0' as int] == c;
    } else if 'A' <= c <= 'F' {
      assert NONCE_ALPHABET[c as int - 'A' as int + 10] == c;
    }
  }

  /** A commit succeeds exactly for the holder of the last admitted proof, while it is there. */
  lemma CommittedIff(now: Time, calls: seq<Call>, sha256: string -> string, device: string, id: string, at: Time)
    requires Run(Start(now), calls, sha256).latest <= at
    ensures CommitsNow(Run(Start(now), calls, sha256), Call(Commits(device, id), at))
       <==> && StillThere(Start(now), calls, sha256, device, at)
            && HolderSince(Start(now), calls, sha256, device) == Some(id)
  {
    RunReflects(now, calls, sha256, device);
  }

  /** A proof is admitted unless it was committed in the last two minutes, or is the last one and held. */
  lemma AdmittedIff(
    now: Time, calls: seq<Call>, sha256: string -> string, device: string,
        digest: string, mqttDeviceId: string, at: Time)
    requires Run(Start(now), calls, sha256).latest <= at
    ensures AdmitsProof(Run(Start(now), calls, sha256), Call(Registers(device, digest, mqttDeviceId), at), device)
       <==> && !RecentlyCommitted(Run(Start(now), calls, sha256).log, device, Lower(digest), at)
            && !(&& StillThere(Start(now), calls, sha256, device, at)
                 && Lower(LastAdmitted(Start(now), calls, sha256, device).value.action.digest) == Lower(digest)
                 && HolderSince(Start(now), calls, sha256, device).Some?)
  {
    RunReflects(now, calls, sha256, device);
    RunRemembersCommits(now, calls, sha256);
    RunKeeps(Start(now), calls, sha256);
    ConsumedIff(Run(Start(now), calls, sha256), device, Lower(digest), at);
  }

  lemma ConsumedIff(t: Trace, device: string, digest: string, at: Time)
    requires Inv(t) && ConsumedAreCommitted(t) && t.latest <= at
    ensures (device, digest) in Pruned(t.store, at).consumed <==> RecentlyCommitted(t.log, device, digest, at)
  {
    if RecentlyCommitted(t.log, device, digest, at) {
      var c :| c in t.log && c.device == device && c.digest == digest && at < c.at + 120 * SECOND;
      assert Barred(t.store, c, t.latest);
    }
  }

  /** The last admission by position: admitted, and none of the device after it. */
  lemma {:induction false} LastAdmittedIs(t: Trace, calls: seq<Call>, sha256: string -> string, device: string)
    returns (i: nat)
    requires LastAdmitted(t, calls, sha256, device).Some?
    ensures i < |calls| && calls[i] == LastAdmitted(t, calls, sha256, device).value
    ensures AdmitsProof(Run(t, calls[..i], sha256), calls[i], device)
    ensures forall j :: i < j < |calls| ==> !AdmitsProof(Run(t, calls[..j], sha256), calls[j], device)
  {
    var n := |calls| - 1;
    if AdmitsProof(Run(t, calls[..n], sha256), calls[n], device) {
      return n;
    }
    i := LastAdmittedIs(t, calls[..n], sha256, device);
    assert forall j :: 0 <= j < n ==> calls[..n][..j] == calls[..j];
  }

  /**
   Every reservation goes back to a registration of its digest at most two minutes old,
   with none of the device since.
   */
  lemma ReservationNeedsRegistration(
    now: Time, calls: seq<Call>, sha256: string -> string, device: string, nonce: string, at: Time)
    returns (i: nat)
    requires Run(Start(now), calls, sha256).latest <= at
    requires Reserves(Run(Start(now), calls, sha256).store, device, nonce, sha256(nonce), at)
    ensures i < |calls| && AdmitsProof(Run(Start(now), calls[..i], sha256), calls[i], device)
    ensures Lower(calls[i].action.digest) == sha256(nonce) && calls[i].at <= at < calls[i].at + 120 * SECOND
    ensures forall j :: i < j < |calls| ==> !AdmitsProof(Run(Start(now), calls[..j], sha256), calls[j], device)
  {
    ReservedIff(now, calls, sha256, device, nonce, at);
    RunReflects(now, calls, sha256, device);
    i := LastAdmittedIs(Start(now), calls, sha256, device);
  }
}
