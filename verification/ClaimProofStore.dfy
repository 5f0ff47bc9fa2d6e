/**
 Life of a claim proof: registered by the device, reserved by a claim request,
 then released or committed; a committed proof cannot come back for a while.
 */
module ClaimProofStore {
  import opened Basics

  const CLAIM_PROOF_TTL: Time := 120 * SECOND
  const NONCE_ALPHABET := "0123456789ABCDEF"

  datatype Proof = Proof(digest: string, mqttDeviceId: string, expiresAt: Time,
      reservation: Option<string>, reservationExpiresAt: Time)
  datatype Store = Store(proofs: map<string, Proof>, consumed: map<(string, string), Time>)

  function LowerChar(c: char): char { if 'A' <= c <= 'Z' then c - 'A' + 'a' else c }

  function Lower(s: string): string { seq(|s|, i requires 0 <= i < |s| => LowerChar(s[i])) }

  predicate WellFormedNonce(nonce: string) { |nonce| == 32 && forall c :: c in nonce ==> c in NONCE_ALPHABET }

  // ---- what each call does ---------------------------------------------------

  function Pruned(s: Store, now: Time): Store {
    Store(map d | d in s.proofs && now < s.proofs[d].expiresAt :: s.proofs[d],
          map k | k in s.consumed && now < s.consumed[k] :: s.consumed[k])
  }

  predicate Registrable(s: Store, device: string, digest: string) {
    && (device, digest) !in s.consumed
    && !(device in s.proofs && s.proofs[device].reservation.Some? && s.proofs[device].digest == digest)
  }

  function Register(s: Store, device: string, digest: string, mqttDeviceId: string, now: Time): Store {
    var p := Pruned(s, now);
    if Registrable(p, device, Lower(digest))
    then WithProof(p, device, Proof(Lower(digest), mqttDeviceId, now + CLAIM_PROOF_TTL, None, 0))
    else p
  }

  function WithProof(s: Store, device: string, proof: Proof): Store { s.(proofs := s.proofs[device := proof]) }

  predicate Reservable(s: Store, device: string, hash: string, now: Time) {
    && device in s.proofs && s.proofs[device].digest == hash
    && !(s.proofs[device].reservation.Some? && now < s.proofs[device].reservationExpiresAt)
  }

  /** `hash` is the digest of the nonce. */
  function Reserve(s: Store, device: string, nonce: string, hash: string, id: string, now: Time): Store {
    if !WellFormedNonce(nonce) then s
    else
      var p := Pruned(s, now);
      if Reservable(p, device, hash, now)
      then WithProof(p, device,
          p.proofs[device].(reservation := Some(id), reservationExpiresAt := p.proofs[device].expiresAt))
      else p
  }

  predicate Reserves(s: Store, device: string, nonce: string, hash: string, now: Time) {
    WellFormedNonce(nonce) && Reservable(Pruned(s, now), device, hash, now)
  }

  predicate Holds(s: Store, device: string, id: string) {
    device in s.proofs && s.proofs[device].reservation == Some(id)
  }

  function Release(s: Store, device: string, id: string): Store {
    if Holds(s, device, id)
    then WithProof(s, device, s.proofs[device].(reservation := None, reservationExpiresAt := 0))
    else s
  }

  function Commit(s: Store, device: string, id: string, now: Time): Store {
    var p := Pruned(s, now);
    if Holds(p, device, id) then Consumed(p, device, now) else p
  }

  function Consumed(s: Store, device: string, now: Time): Store
    requires device in s.proofs
  {
    Store(s.proofs - {device}, s.consumed[(device, s.proofs[device].digest) := now + CLAIM_PROOF_TTL])
  }

  // ---- the store, updated in place -------------------------------------------

  class ProofStore {
    /** SHA-256 in hexadecimal, left abstract. */
    const sha256: string -> string
    var proofs: map<string, Proof>
    var consumed: map<(string, string), Time>

    constructor (sha256: string -> string)
      ensures this.sha256 == sha256 && Contents() == Store(map[], map[])
    {
      this.sha256 := sha256;
      proofs, consumed := map[], map[];
    }

    function Contents(): Store
      reads this
    {
      Store(proofs, consumed)
    }

    method Prune(now: Time)
      modifies this
      ensures Contents() == Pruned(old(Contents()), now)
    {
      var expiredDevices := set d | d in proofs && proofs[d].expiresAt <= now;
      proofs := proofs - expiredDevices;
      var expiredProofs := set k | k in consumed && consumed[k] <= now;
      consumed := consumed - expiredProofs;
    }

    method RegisterProof(device: string, proofSha256: string, mqttDeviceId: string, now: Time)
      returns (registered: bool)
      modifies this
      ensures registered <==> Registrable(Pruned(old(Contents()), now), device, Lower(proofSha256))
      ensures Contents() == Register(old(Contents()), device, proofSha256, mqttDeviceId, now)
    {
      var digest := Lower(proofSha256);
      Prune(now);
      if (device, digest) in consumed { return false; }
      if device in proofs && proofs[device].reservation.Some? && proofs[device].digest == digest { return false; }
      proofs := proofs[device := Proof(digest, mqttDeviceId, now + CLAIM_PROOF_TTL, None, 0)];
      return true;
    }

    method ReserveProof(device: string, nonce: string, freshId: string, now: Time)
      returns (reserved: Option<(string, string)>)
      modifies this
      ensures reserved.Some? <==> Reserves(old(Contents()), device, nonce, sha256(nonce), now)
      ensures reserved.Some? ==> reserved.value.0 == freshId && reserved.value.1 == old(proofs)[device].mqttDeviceId
      ensures Contents() == Reserve(old(Contents()), device, nonce, sha256(nonce), freshId, now)
    {
      if !WellFormedNonce(nonce) { return None; }
      Prune(now);
      if device !in proofs { return None; }
      var proof := proofs[device];
      if sha256(nonce) != proof.digest { return None; }
      if proof.reservation.Some? && now < proof.reservationExpiresAt { return None; }
      proofs := proofs[device := proof.(reservation := Some(freshId), reservationExpiresAt := proof.expiresAt)];
      return Some((freshId, proof.mqttDeviceId));
    }

    method ReleaseProof(device: string, id: string)
      modifies this
      ensures Contents() == Release(old(Contents()), device, id)
    {
      if device !in proofs || proofs[device].reservation != Some(id) { return; }
      proofs := proofs[device := proofs[device].(reservation := None, reservationExpiresAt := 0)];
    }

    method CommitProof(device: string, id: string, now: Time) returns (committed: bool)
      modifies this
      ensures committed <==> Holds(Pruned(old(Contents()), now), device, id)
      ensures Contents() == Commit(old(Contents()), device, id, now)
    {
      Prune(now);
      if device !in proofs || proofs[device].reservation != Some(id) { return false; }
      var digest := proofs[device].digest;
      proofs := proofs - {device};
      consumed := consumed[(device, digest) := now + CLAIM_PROOF_TTL];
      return true;
    }
  }

  // ---- runs ------------------------------------------------------------------

  datatype Action =
    | Registers(device: string, digest: string, mqttDeviceId: string)
    | ReservesWith(device: string, nonce: string, id: string)
    | Releases(device: string, id: string)
    | Commits(device: string, id: string)
  datatype Call = Call(action: Action, at: Time)

  datatype Commitment = Commitment(device: string, digest: string, id: string, at: Time)

  /** The store, the reservation ids handed out, the commits so far and the latest call. */
  datatype Trace = Trace(store: Store, issued: set<string>, log: seq<Commitment>, latest: Time)

  const Empty := Store(map[], map[])

  /** Calls come one at a time; a reservation id is new. */
  predicate Possible(t: Trace, c: Call) {
    t.latest <= c.at && (c.action.ReservesWith? ==> c.action.id !in t.issued)
  }

  function Next(t: Trace, c: Call, sha256: string -> string): Trace {
    match c.action
    case Registers(device, digest, mqttDeviceId) =>
      t.(store := Register(t.store, device, digest, mqttDeviceId, c.at), latest := c.at)
    case ReservesWith(device, nonce, id) =>
      t.(store := Reserve(t.store, device, nonce, sha256(nonce), id, c.at), issued := t.issued + {id}, latest := c.at)
    case Releases(device, id) => t.(store := Release(t.store, device, id), latest := c.at)
    case Commits(device, id) =>
      t.(store := Commit(t.store, device, id, c.at), latest := c.at,
         log := if CommitsNow(t, c)
                then t.log + [Commitment(device, t.store.proofs[device].digest, id, c.at)]
                else t.log)
  }

  predicate CommitsNow(t: Trace, c: Call) {
    c.action.Commits? && Holds(Pruned(t.store, c.at), c.action.device, c.action.id)
  }

  function Run(t: Trace, calls: seq<Call>, sha256: string -> string): Trace {
    if calls == [] then t
    else
      var before := Run(t, calls[..|calls| - 1], sha256);
      if Possible(before, calls[|calls| - 1]) then Next(before, calls[|calls| - 1], sha256) else before
  }

  function Start(now: Time): Trace { Trace(Empty, {}, [], now) }

  // ---- the invariant ---------------------------------------------------------

  /** A proof committed less than a TTL ago is remembered, and not registered. */
  ghost predicate Barred(s: Store, c: Commitment, now: Time) {
    now < c.at + CLAIM_PROOF_TTL ==>
      && (c.device, c.digest) in s.consumed && c.at + CLAIM_PROOF_TTL <= s.consumed[(c.device, c.digest)]
      && !(c.device in s.proofs && s.proofs[c.device].digest == c.digest)
  }

  /** Reservation ids are handed out once, and are gone once committed. */
  ghost predicate IdsAreUnique(t: Trace) {
    && (forall d :: d in t.store.proofs && t.store.proofs[d].reservation.Some? ==>
         t.store.proofs[d].reservation.value in t.issued)
    && (forall d, e :: d in t.store.proofs && e in t.store.proofs && d != e && t.store.proofs[d].reservation.Some? ==>
          t.store.proofs[d].reservation != t.store.proofs[e].reservation)
    && (forall c :: c in t.log ==> c.id in t.issued && forall d :: d in t.store.proofs ==>
         t.store.proofs[d].reservation != Some(c.id))
  }

  ghost predicate Distinct(log: seq<Commitment>) {
    forall i, j :: 0 <= i < j < |log| ==>
      && log[i].id != log[j].id
      && (log[i].device == log[j].device && log[i].digest == log[j].digest ==> log[i].at + CLAIM_PROOF_TTL <= log[j].at)
  }

  ghost predicate Inv(t: Trace) {
    && (forall c :: c in t.log ==> c.at <= t.latest && Barred(t.store, c, t.latest))
    && IdsAreUnique(t)
    && Distinct(t.log)
  }

  lemma PruneKeeps(t: Trace, now: Time)
    requires Inv(t) && t.latest <= now
    ensures Inv(t.(store := Pruned(t.store, now), latest := now))
  {
  }

  lemma ProofKeeps(t: Trace, device: string, proof: Proof)
    requires Inv(t)
    requires (device, proof.digest) in t.store.consumed ==> HasDigest(t.store, device, proof.digest)
    requires proof.reservation.None?
    ensures Inv(t.(store := WithProof(t.store, device, proof)))
  {
  }

  lemma ReservationKeeps(t: Trace, device: string, id: string, proof: Proof)
    requires Inv(t) && id !in t.issued && device in t.store.proofs
    requires proof == t.store.proofs[device].(reservation := Some(id),
               reservationExpiresAt := proof.reservationExpiresAt)
    ensures Inv(t.(store := WithProof(t.store, device, proof), issued := t.issued + {id}))
  {
  }

  lemma CommitKeeps(t: Trace, device: string, id: string)
    requires Inv(t) && Holds(t.store, device, id)
    ensures Inv(t.(store := Consumed(t.store, device, t.latest),
                   log := t.log + [Commitment(device, t.store.proofs[device].digest, id, t.latest)]))
  {
    var commitment := Commitment(device, t.store.proofs[device].digest, id, t.latest);
    var log := t.log + [commitment];
    forall i | 0 <= i < |t.log|
      ensures t.log[i].id != id
      ensures t.log[i].device == device && t.log[i].digest == commitment.digest ==>
                t.log[i].at + CLAIM_PROOF_TTL <= t.latest
    {
      assert t.log[i] in t.log;
    }
    assert forall c :: c in log <==> c in t.log || c == commitment;
  }

  lemma StepKeeps(t: Trace, c: Call, sha256: string -> string)
    requires Inv(t) && Possible(t, c)
    ensures Inv(Next(t, c, sha256))
  {
    PruneKeeps(t, c.at);
    var p := t.(store := Pruned(t.store, c.at), latest := c.at);
    match c.action {
      case Registers(device, digest, mqttDeviceId) =>
        if Registrable(p.store, device, Lower(digest)) {
          ProofKeeps(p, device, Proof(Lower(digest), mqttDeviceId, c.at + CLAIM_PROOF_TTL, None, 0));
        }
      case ReservesWith(device, nonce, id) =>
        if Reserves(t.store, device, nonce, sha256(nonce), c.at) {
          ReservationKeeps(p, device, id,
              p.store.proofs[device].(reservation := Some(id),
                  reservationExpiresAt := p.store.proofs[device].expiresAt));
        }
      case Releases(device, id) =>
        if Holds(t.store, device, id) {
          ProofKeeps(t, device, t.store.proofs[device].(reservation := None, reservationExpiresAt := 0));
        }
      case Commits(device, id) =>
        if Holds(p.store, device, id) { CommitKeeps(p, device, id); }
    }
  }

  lemma {:induction false} RunKeeps(t: Trace, calls: seq<Call>, sha256: string -> string)
    requires Inv(t)
    ensures Inv(Run(t, calls, sha256))
  {
    if calls != [] {
      RunKeeps(t, calls[..|calls| - 1], sha256);
      var before := Run(t, calls[..|calls| - 1], sha256);
      if Possible(before, calls[|calls| - 1]) {
        StepKeeps(before, calls[|calls| - 1], sha256);
      }
    }
  }

  // ---- main results ----------------------------------------------------------

  /** In every run, a reservation commits at most once and the same proof at most once per TTL. */
  lemma CommitsAreApart(now: Time, calls: seq<Call>, sha256: string -> string, i: nat, j: nat)
    requires i < j < |Run(Start(now), calls, sha256).log|
    ensures var log := Run(Start(now), calls, sha256).log;
            && log[i].id != log[j].id
            && (log[i].device == log[j].device && log[i].digest == log[j].digest ==>
                 log[i].at + CLAIM_PROOF_TTL <= log[j].at)
  {
    RunKeeps(Start(now), calls, sha256);
  }

  /** A reservation lasts as long as its proof. */
  ghost predicate ReservedAsLongAsValid(s: Store) {
    forall d :: d in s.proofs && s.proofs[d].reservation.Some? ==>
        s.proofs[d].reservationExpiresAt == s.proofs[d].expiresAt
  }

  lemma {:induction false} RunKeepsExpiry(t: Trace, calls: seq<Call>, sha256: string -> string)
    requires ReservedAsLongAsValid(t.store)
    ensures ReservedAsLongAsValid(Run(t, calls, sha256).store)
  {
    if calls != [] {
      RunKeepsExpiry(t, calls[..|calls| - 1], sha256);
    }
  }

  // ---- how long a reservation excludes others --------------------------------

  /** Before the proof expires, and neither a release nor a commit by its holder. */
  predicate SparesHolder(c: Call, device: string, id: string, expiresAt: Time) {
    c.at < expiresAt && c.action != Releases(device, id) && c.action != Commits(device, id)
  }

  /** The store admits a registration of the device, and its digest is the given one or another. */
  predicate Admits(t: Trace, c: Call, device: string, digest: string, same: bool) {
    && Possible(t, c) && c.action.Registers? && c.action.device == device
    && Registrable(Pruned(t.store, c.at), device, Lower(c.action.digest))
    && (Lower(c.action.digest) == digest) == same
  }

  predicate AdmitsAt(
    t: Trace, calls: seq<Call>, sha256: string -> string, device: string, digest: string, same: bool, i: nat)
    requires i < |calls|
  {
    Admits(Run(t, calls[..i], sha256), calls[i], device, digest, same)
  }

  /** Another proof of the device was admitted. */
  ghost predicate Replaced(t: Trace, calls: seq<Call>, sha256: string -> string, device: string, digest: string) {
    exists i :: 0 <= i < |calls| && AdmitsAt(t, calls, sha256, device, digest, false, i)
  }

  /** Another proof of the device was admitted, and the first one again after it. */
  ghost predicate Renewed(t: Trace, calls: seq<Call>, sha256: string -> string, device: string, digest: string) {
    exists i, j :: 0 <= i < j < |calls|
      && AdmitsAt(t, calls, sha256, device, digest, false, i) && AdmitsAt(t, calls, sha256, device, digest, true, j)
  }

  lemma OneMoreCall(t: Trace, calls: seq<Call>, c: Call, sha256: string -> string, device: string, digest: string)
    ensures var before, all := Run(t, calls, sha256), calls + [c];
            && (Replaced(t, all, sha256, device, digest)
                <==> Replaced(t, calls, sha256, device, digest) || Admits(before, c, device, digest, false))
            && (Renewed(t, all, sha256, device, digest)
                <==> Renewed(t, calls, sha256, device, digest)
                     || (Replaced(t, calls, sha256, device, digest) && Admits(before, c, device, digest, true)))
  {
    var all, n := calls + [c], |calls|;
    assert all[..n] == calls;
    forall i, same | 0 <= i < n
      ensures AdmitsAt(t, all, sha256, device, digest, same, i) == AdmitsAt(t, calls, sha256, device, digest, same, i)
    {
      assert all[..i] == calls[..i];
    }
    assert forall same ::
        AdmitsAt(t, all, sha256, device, digest, same, n) == Admits(Run(t, calls, sha256), c, device, digest, same);
  }

  predicate HasDigest(s: Store, device: string, digest: string) {
    device in s.proofs && s.proofs[device].digest == digest
  }

  lemma ReservedStep(t: Trace, c: Call, sha256: string -> string, device: string, id: string)
    requires Holds(t.store, device, id) && ReservedAsLongAsValid(t.store) && id in t.issued && Possible(t, c)
    requires SparesHolder(c, device, id, t.store.proofs[device].expiresAt)
    ensures var after, proof := Next(t, c, sha256).store, t.store.proofs[device];
            if Admits(t, c, device, proof.digest, false)
            then !HasDigest(after, device, proof.digest) && !Holds(after, device, id)
            else device in after.proofs && after.proofs[device] == proof
  {
    assert device in Pruned(t.store, c.at).proofs;
  }

  lemma ReplacedStep(t: Trace, c: Call, sha256: string -> string, device: string, digest: string, id: string)
    requires !HasDigest(t.store, device, digest) && !Holds(t.store, device, id) && id in t.issued && Possible(t, c)
    ensures !Holds(Next(t, c, sha256).store, device, id)
    ensures HasDigest(Next(t, c, sha256).store, device, digest) ==> Admits(t, c, device, digest, true)
  {
  }

  lemma LostStep(t: Trace, c: Call, sha256: string -> string, device: string, id: string)
    requires !Holds(t.store, device, id) && id in t.issued && Possible(t, c)
    ensures !Holds(Next(t, c, sha256).store, device, id)
  {
  }

  /** Where a proof reserved under `id` stands after some calls: renewed, replaced by another, or untouched. */
  lemma {:induction false} Standing(t: Trace, calls: seq<Call>, sha256: string -> string, device: string, id: string)
    requires Holds(t.store, device, id) && ReservedAsLongAsValid(t.store) && id in t.issued
    requires forall c :: c in calls ==> SparesHolder(c, device, id, t.store.proofs[device].expiresAt)
    ensures var now, proof := Run(t, calls, sha256), t.store.proofs[device];
            && id in now.issued
            && (Holds(now.store, device, id) <==> !Replaced(t, calls, sha256, device, proof.digest))
            && (Holds(now.store, device, id) ==> now.store.proofs[device] == proof)
            && (HasDigest(now.store, device, proof.digest) && !Holds(now.store, device, id)
                ==> Renewed(t, calls, sha256, device, proof.digest))
  {
    if calls != [] {
      var n, proof := |calls| - 1, t.store.proofs[device];
      var earlier, c := calls[..n], calls[n];
      assert calls == earlier + [c];
      Standing(t, earlier, sha256, device, id);
      RunKeepsExpiry(t, earlier, sha256);
      OneMoreCall(t, earlier, c, sha256, device, proof.digest);
      var before := Run(t, earlier, sha256);
      if Possible(before, c) {
        if Holds(before.store, device, id) {
          ReservedStep(before, c, sha256, device, id);
        } else {
          LostStep(before, c, sha256, device, id);
          if !HasDigest(before.store, device, proof.digest) {
            ReplacedStep(before, c, sha256, device, proof.digest, id);
          }
        }
      }
    }
  }

  /** Some call of the run could be followed at once by a second reservation of the proof. */
  ghost predicate ReservableAgain(
    t: Trace, calls: seq<Call>, sha256: string -> string, device: string, nonce: string, expiresAt: Time)
  {
    exists m, at :: 0 <= m <= |calls| && ReservedAgainAt(t, calls[..m], sha256, device, nonce, at, expiresAt)
  }

  predicate ReservedAgainAt(
    t: Trace, calls: seq<Call>, sha256: string -> string, device: string, nonce: string, at: Time, expiresAt: Time)
  {
    var now := Run(t, calls, sha256);
    now.latest <= at < expiresAt && Reserves(now.store, device, nonce, sha256(nonce), at)
  }

  lemma PrefixRenews(t: Trace, calls: seq<Call>, sha256: string -> string, device: string, digest: string, m: nat)
    requires m <= |calls| && Renewed(t, calls[..m], sha256, device, digest)
    ensures Renewed(t, calls, sha256, device, digest)
  {
    var i, j :| 0 <= i < j < m
      && AdmitsAt(t, calls[..m], sha256, device, digest, false, i)
      && AdmitsAt(t, calls[..m], sha256, device, digest, true, j);
    assert calls[..m][..i] == calls[..i] && calls[..m][..j] == calls[..j];
    assert AdmitsAt(t, calls, sha256, device, digest, false, i) && AdmitsAt(t, calls, sha256, device, digest, true, j);
  }

  lemma AdmittedIsReservable(t: Trace, c: Call, sha256: string -> string, device: string, nonce: string)
    requires WellFormedNonce(nonce) && Admits(t, c, device, sha256(nonce), true)
    ensures Next(t, c, sha256).latest == c.at && Reserves(Next(t, c, sha256).store, device, nonce, sha256(nonce), c.at)
  {
  }

  lemma RenewedIsReservable(
    t: Trace, calls: seq<Call>, sha256: string -> string, device: string, nonce: string, expiresAt: Time, j: nat)
    requires WellFormedNonce(nonce) && j < |calls| && calls[j].at < expiresAt
    requires AdmitsAt(t, calls, sha256, device, sha256(nonce), true, j)
    ensures ReservedAgainAt(t, calls[..j + 1], sha256, device, nonce, calls[j].at, expiresAt)
  {
    AdmittedIsReservable(Run(t, calls[..j], sha256), calls[j], sha256, device, nonce);
    assert calls[..j + 1][..j] == calls[..j];
  }

  /**
   Before a reserved proof expires, and unless its holder ends the reservation, a
   second reservation of it is possible exactly when the device had another proof
   admitted and then this one again.
   */
  lemma SecondReservationIff(
    now: Time, earlier: seq<Call>, t: Trace, calls: seq<Call>, sha256: string -> string,
    device: string, id: string, nonce: string)
    requires t == Run(Start(now), earlier, sha256) && Holds(t.store, device, id)
    requires WellFormedNonce(nonce) && sha256(nonce) == t.store.proofs[device].digest
    requires forall c :: c in calls ==> SparesHolder(c, device, id, t.store.proofs[device].expiresAt)
    ensures ReservableAgain(t, calls, sha256, device, nonce, t.store.proofs[device].expiresAt)
       <==> Renewed(t, calls, sha256, device, sha256(nonce))
  {
    var digest, expiresAt := sha256(nonce), t.store.proofs[device].expiresAt;
    RunKeeps(Start(now), earlier, sha256);
    RunKeepsExpiry(Start(now), earlier, sha256);
    if ReservableAgain(t, calls, sha256, device, nonce, expiresAt) {
      var m, at :| 0 <= m <= |calls| && ReservedAgainAt(t, calls[..m], sha256, device, nonce, at, expiresAt);
      assert forall c :: c in calls[..m] ==> c in calls;
      Standing(t, calls[..m], sha256, device, id);
      PrefixRenews(t, calls, sha256, device, digest, m);
    }
    if Renewed(t, calls, sha256, device, digest) {
      var i, j :| 0 <= i < j < |calls|
        && AdmitsAt(t, calls, sha256, device, digest, false, i) && AdmitsAt(t, calls, sha256, device, digest, true, j);
      assert calls[j] in calls;
      RenewedIsReservable(t, calls, sha256, device, nonce, expiresAt, j);
    }
  }

  /** Until then, no nonce of the proof reserves it. */
  lemma ReservationIsExclusive(
    now: Time, earlier: seq<Call>, t: Trace, calls: seq<Call>, sha256: string -> string,
    device: string, id: string, nonce: string, at: Time)
    requires t == Run(Start(now), earlier, sha256) && Holds(t.store, device, id)
    requires at < t.store.proofs[device].expiresAt
    requires sha256(nonce) == t.store.proofs[device].digest
    requires forall c :: c in calls ==> SparesHolder(c, device, id, t.store.proofs[device].expiresAt)
    requires !Renewed(t, calls, sha256, device, sha256(nonce))
    ensures !Reserves(Run(t, calls, sha256).store, device, nonce, sha256(nonce), at)
  {
    RunKeeps(Start(now), earlier, sha256);
    RunKeepsExpiry(Start(now), earlier, sha256);
    Standing(t, calls, sha256, device, id);
  }

  /** Under the same conditions its holder can commit exactly as long as no other proof of the device was admitted. */
  lemma HolderCanCommitIff(
    now: Time, earlier: seq<Call>, t: Trace, calls: seq<Call>,
    sha256: string -> string, device: string, id: string, at: Time)
    requires t == Run(Start(now), earlier, sha256) && Holds(t.store, device, id)
    requires at < t.store.proofs[device].expiresAt
    requires forall c :: c in calls ==> SparesHolder(c, device, id, t.store.proofs[device].expiresAt)
    ensures CommitsNow(Run(t, calls, sha256), Call(Commits(device, id), at))
       <==> !Replaced(t, calls, sha256, device, t.store.proofs[device].digest)
  {
    RunKeeps(Start(now), earlier, sha256);
    RunKeepsExpiry(Start(now), earlier, sha256);
    Standing(t, calls, sha256, device, id);
  }

  // ---- a proof reserved twice ------------------------------------------------

  /** A proof is registered and reserved; the device then registers another one and the first again. */
  function Twice(device: string, nonce: string, hash: string, other: string, mqttDeviceId: string, id: string, at: Time)
    : seq<Call>
  {
    [Call(Registers(device, hash, mqttDeviceId), at)] + [Call(ReservesWith(device, nonce, id), at)]
    + [Call(Registers(device, other, mqttDeviceId), at)] + [Call(Registers(device, hash, mqttDeviceId), at)]
  }

  lemma RunOneMore(t: Trace, calls: seq<Call>, c: Call, sha256: string -> string)
    ensures Run(t, calls + [c], sha256)
         == if Possible(Run(t, calls, sha256), c) then Next(Run(t, calls, sha256), c, sha256) else Run(t, calls, sha256)
  {
    assert (calls + [c])[..|calls|] == calls;
  }

  /** From an empty store: the proof is held after two calls, and can be reserved by someone else after four. */
  lemma ReregisteredProofIsReservedAgain(
    device: string, nonce: string, other: string, mqttDeviceId: string, id: string, at: Time, sha256: string -> string)
    requires WellFormedNonce(nonce) && Lower(sha256(nonce)) == sha256(nonce) != Lower(other)
    ensures var calls := Twice(device, nonce, sha256(nonce), other, mqttDeviceId, id, at);
            && Holds(Run(Start(at), calls[..2], sha256).store, device, id)
            && !Reserves(Run(Start(at), calls[..2], sha256).store, device, nonce, sha256(nonce), at)
            && Reserves(Run(Start(at), calls, sha256).store, device, nonce, sha256(nonce), at)
  {
    var hash := sha256(nonce);
    var calls := Twice(device, nonce, hash, other, mqttDeviceId, id, at);
    assert calls[..2] == [] + [calls[0]] + [calls[1]];
    assert calls == [] + [calls[0]] + [calls[1]] + [calls[2]] + [calls[3]];
    RunOneMore(Start(at), [], calls[0], sha256);
    var one := Run(Start(at), [] + [calls[0]], sha256);
    assert one.store.proofs[device] == Proof(hash, mqttDeviceId, at + CLAIM_PROOF_TTL, None, 0)
        && one.store.consumed == map[];
    RunOneMore(Start(at), [] + [calls[0]], calls[1], sha256);
    var two := Run(Start(at), [] + [calls[0]] + [calls[1]], sha256);
    assert two.store.proofs[device] == Proof(hash, mqttDeviceId, at + CLAIM_PROOF_TTL, Some(id), at + CLAIM_PROOF_TTL);
    RunOneMore(Start(at), [] + [calls[0]] + [calls[1]], calls[2], sha256);
    var three := Run(Start(at), [] + [calls[0]] + [calls[1]] + [calls[2]], sha256);
    assert three.store.proofs[device] == Proof(Lower(other), mqttDeviceId, at + CLAIM_PROOF_TTL, None, 0);
    RunOneMore(Start(at), [] + [calls[0]] + [calls[1]] + [calls[2]], calls[3], sha256);
  }
}
