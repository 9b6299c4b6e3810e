/** Credentials against history: after any run, what the registry stores and what it
    answers is a function of the operations it accepted. */
module PassportHistory {
  import opened Common
  import opened PassportSpec

  // ---- Reading the history ----

  /** The operations that set the status of credential `id`. */
  predicate SetsStatus(e: Event, id: Bytes32) {
    match e
    case CredentialIssued(_, item, _) => item.id == id
    case CredentialRevoked(_, i, _) => i == id
    case CredentialSuspended(_, i, _) => i == id
    case CredentialReactivated(_, i) => i == id
    case _ => false
  }

  /** The operations that switch `issuer` on or off. */
  predicate SwitchesIssuer(e: Event, issuer: Address) {
    match e
    case IssuerRegistered(i) => i == issuer
    case IssuerDeauthorized(i) => i == issuer
    case IssuerReactivated(i) => i == issuer
    case _ => false
  }

  predicate Issues(e: Event, id: Bytes32) { e.CredentialIssued? && e.item.id == id }

  /** Position `k` holds the last status operation on `id`. */
  ghost predicate LastStatusAt(h: seq<Event>, id: Bytes32, k: nat) {
    k < |h| && SetsStatus(h[k], id) && forall j | k < j < |h| :: !SetsStatus(h[j], id)
  }

  ghost predicate LastIssuerAt(h: seq<Event>, issuer: Address, k: nat) {
    k < |h| && SwitchesIssuer(h[k], issuer) && forall j | k < j < |h| :: !SwitchesIssuer(h[j], issuer)
  }

  /** The last status operation on `id` was an issue or a reactivation. */
  ghost predicate Standing(h: seq<Event>, id: Bytes32) {
    exists k: nat :: LastStatusAt(h, id, k) && (h[k].CredentialIssued? || h[k].CredentialReactivated?)
  }

  /** The last operation on `issuer` was a registration or a reactivation. */
  ghost predicate InOffice(h: seq<Event>, issuer: Address) {
    exists k: nat :: LastIssuerAt(h, issuer, k) && !h[k].IssuerDeauthorized?
  }

  /** What "valid" means, in terms of the history alone. */
  ghost predicate ValidByHistory(h: seq<Event>, now: U64, id: Bytes32, claimed: Bytes32) {
    exists i: nat ::
      && i < |h| && Issues(h[i], id)
      && h[i].item.hash == claimed
      && (h[i].item.expiresAt.Some? ==> now < h[i].item.expiresAt.value)
      && InOffice(h, h[i].caller)
      && Standing(h, id)
  }

  /** The ids issued to `recipient`, in order of issue. */
  function IssuedTo(h: seq<Event>, recipient: Address): seq<Bytes32> {
    if h == [] then []
    else
      var e := h[|h| - 1];
      IssuedTo(h[..|h| - 1], recipient)
      + if e.CredentialIssued? && e.item.recipient == recipient then [e.item.id] else []
  }

  function StatusAfter(e: Event): CredentialStatus {
    if e.CredentialRevoked? then Revoked else if e.CredentialSuspended? then Suspended else Active
  }

  function ReasonAfter(e: Event): Option<string> {
    if e.CredentialRevoked? || e.CredentialSuspended? then Some(e.reason) else None
  }

  function IssuedRecord(e: Event): CredentialRecord
    requires e.CredentialIssued?
  {
    CredentialRecord(e.item.id, e.caller, e.item.recipient, e.item.hash, e.item.templateId, e.at, e.item.expiresAt,
                     Active, None)
  }

  // ---- The store mirrors the history ----

  /** The record of `id`: issued at `i`, last touched at `k`. */
  ghost predicate RecordFrom(h: seq<Event>, c: CredentialRecord, i: nat, k: nat) {
    && i < |h| && Issues(h[i], c.id) && LastStatusAt(h, c.id, k)
    && c == IssuedRecord(h[i]).(status := StatusAfter(h[k]), reason := ReasonAfter(h[k]))
  }

  ghost predicate IssuedOnce(h: seq<Event>) {
    forall i, j | 0 <= i < |h| && 0 <= j < |h| && h[i].CredentialIssued? && h[j].CredentialIssued?
                  && h[i].item.id == h[j].item.id :: i == j
  }

  ghost predicate CredentialsMirror(s: Store) {
    && (forall id | id in s.credentials ::
          s.credentials[id].id == id && exists i: nat, k: nat :: RecordFrom(s.log, s.credentials[id], i, k))
    && (forall i, id | 0 <= i < |s.log| && SetsStatus(s.log[i], id) :: id in s.credentials)
    && IssuedOnce(s.log)
  }

  /** The record of an issuer last switched at `k`. */
  ghost predicate IssuerFrom(h: seq<Event>, r: IssuerRecord, k: nat) {
    LastIssuerAt(h, r.address, k) && r.isActive == !h[k].IssuerDeauthorized?
  }

  ghost predicate IssuersMirror(s: Store) {
    && (forall a | a in s.issuers :: s.issuers[a].address == a && exists k: nat :: IssuerFrom(s.log, s.issuers[a], k))
    && (forall i, a | 0 <= i < |s.log| && SwitchesIssuer(s.log[i], a) :: a in s.issuers)
  }

  ghost predicate LearnersMirror(s: Store) {
    forall a :: Learned(s, a) == IssuedTo(s.log, a)
  }

  /** Revocation is never followed by another status operation. */
  ghost predicate RevokedForGood(h: seq<Event>) {
    forall i, j | 0 <= i < j < |h| && h[i].CredentialRevoked? :: !SetsStatus(h[j], h[i].id)
  }

  ghost predicate Mirrors(s: Store) {
    CredentialsMirror(s) && IssuersMirror(s) && LearnersMirror(s) && RevokedForGood(s.log)
  }

  // ---- Appending one operation ----

  lemma SameRecord(h: seq<Event>, e: Event, c: CredentialRecord)
    requires !SetsStatus(e, c.id)
    requires exists i: nat, k: nat :: RecordFrom(h, c, i, k)
    ensures exists i: nat, k: nat :: RecordFrom(h + [e], c, i, k)
  {
    var i: nat, k: nat :| RecordFrom(h, c, i, k);
    assert RecordFrom(h + [e], c, i, k);
  }

  lemma SameIssuer(h: seq<Event>, e: Event, r: IssuerRecord)
    requires !SwitchesIssuer(e, r.address)
    requires exists k: nat :: IssuerFrom(h, r, k)
    ensures exists k: nat :: IssuerFrom(h + [e], r, k)
  {
    var k: nat :| IssuerFrom(h, r, k);
    assert IssuerFrom(h + [e], r, k);
  }

  lemma IssuersAppend(s: Store, t: Store, e: Event)
    requires IssuersMirror(s) && t.log == s.log + [e] && t.issuers == s.issuers
    requires forall a :: !SwitchesIssuer(e, a)
    ensures IssuersMirror(t)
  {
    forall a | a in t.issuers
      ensures exists k: nat :: IssuerFrom(t.log, t.issuers[a], k)
    {
      SameIssuer(s.log, e, s.issuers[a]);
    }
  }

  lemma LearnersAppend(s: Store, t: Store, e: Event)
    requires LearnersMirror(s) && t.log == s.log + [e]
    requires forall a :: Learned(t, a) == Learned(s, a)
                         + if e.CredentialIssued? && e.item.recipient == a then [e.item.id] else []
    ensures LearnersMirror(t)
  {
    assert t.log[..|t.log| - 1] == s.log;
  }

  lemma RevokedAppend(h: seq<Event>, e: Event)
    requires RevokedForGood(h)
    requires forall i | 0 <= i < |h| && h[i].CredentialRevoked? :: !SetsStatus(e, h[i].id)
    ensures RevokedForGood(h + [e])
  {
  }

  lemma OnceAppend(h: seq<Event>, e: Event)
    requires IssuedOnce(h)
    requires e.CredentialIssued? ==> forall i | 0 <= i < |h| && h[i].CredentialIssued? :: h[i].item.id != e.item.id
    ensures IssuedOnce(h + [e])
  {
  }

  /** All records but that of `touched` are as they were. */
  lemma OthersAppend(s: Store, t: Store, e: Event, touched: set<Bytes32>)
    requires CredentialsMirror(s) && t.log == s.log + [e]
    requires forall id | id in t.credentials && id !in touched ::
               id in s.credentials && t.credentials[id] == s.credentials[id]
    requires forall id :: SetsStatus(e, id) ==> id in touched
    ensures forall id | id in t.credentials && id !in touched ::
              t.credentials[id].id == id && exists i: nat, k: nat :: RecordFrom(t.log, t.credentials[id], i, k)
  {
    hide IssuedOnce, RecordFrom;
    forall id | id in t.credentials && id !in touched
      ensures t.credentials[id].id == id && exists i: nat, k: nat :: RecordFrom(t.log, t.credentials[id], i, k)
    {
      SameRecord(s.log, e, s.credentials[id]);
    }
  }

  /** An operation on credential `c.id`, which leaves the record `c`. */
  lemma CredentialAppend(s: Store, t: Store, e: Event, c: CredentialRecord, i: nat, k: nat)
    requires CredentialsMirror(s) && IssuedOnce(t.log)
    requires t.log == s.log + [e] && t.credentials == s.credentials[c.id := c]
    requires forall id :: SetsStatus(e, id) ==> id == c.id
    requires RecordFrom(t.log, c, i, k)
    ensures CredentialsMirror(t)
  {
    hide IssuedOnce, RecordFrom, SetsStatus;
    OthersAppend(s, t, e, {c.id});
  }

  /** An operation on issuers or the administrator. */
  lemma CredentialsAppend(s: Store, t: Store, e: Event)
    requires CredentialsMirror(s) && LearnersMirror(s) && RevokedForGood(s.log)
    requires t.log == s.log + [e] && t.credentials == s.credentials && t.learners == s.learners
    requires forall id :: !SetsStatus(e, id)
    ensures CredentialsMirror(t) && LearnersMirror(t) && RevokedForGood(t.log)
  {
    hide RevokedForGood, IssuedOnce, RecordFrom;
    assert e.CredentialIssued? ==> SetsStatus(e, e.item.id);
    LearnersAppend(s, t, e);
    OthersAppend(s, t, e, {});
    RevokedAppend(s.log, e);
    OnceAppend(s.log, e);
  }

  lemma IssuerKeeps(s: Store, record: IssuerRecord, e: Event)
    requires Mirrors(s)
    requires forall id :: !SetsStatus(e, id)
    requires forall a :: SwitchesIssuer(e, a) ==> a == record.address
    requires if SwitchesIssuer(e, record.address) then record.isActive == !e.IssuerDeauthorized?
             else record.address in s.issuers && record.isActive == s.issuers[record.address].isActive
    ensures Mirrors(PutIssuer(s, record, e))
  {
    var t := PutIssuer(s, record, e);
    CredentialsAppend(s, t, e);
    forall a | a in t.issuers
      ensures t.issuers[a].address == a && exists k: nat :: IssuerFrom(t.log, t.issuers[a], k)
    {
      if a == record.address && SwitchesIssuer(e, a) {
        assert IssuerFrom(t.log, record, |s.log|);
      } else {
        SameIssuer(s.log, e, s.issuers[a]);
        if a == record.address {
          var k: nat :| IssuerFrom(t.log, s.issuers[a], k);
          assert IssuerFrom(t.log, record, k);
        }
      }
    }
  }

  /** An id that was never issued has no history at all. */
  lemma NothingBefore(s: Store, id: Bytes32)
    requires CredentialsMirror(s) && id !in s.credentials
    ensures IssuedOnce(s.log)
    ensures forall i | 0 <= i < |s.log| && s.log[i].CredentialIssued? :: s.log[i].item.id != id
    ensures forall i | 0 <= i < |s.log| :: !SetsStatus(s.log[i], id)
  {
    assert forall i | 0 <= i < |s.log| && s.log[i].CredentialIssued? :: SetsStatus(s.log[i], s.log[i].item.id);
  }

  lemma IssueKeeps(s: Store, now: U64, issuer: Address, item: Item)
    requires Mirrors(s) && IssueOne(s, now, issuer, item).Ok?
    ensures Mirrors(IssueOne(s, now, issuer, item).value)
  {
    hide RevokedForGood, IssuedOnce, IssuersMirror, LearnersMirror, CredentialsMirror;
    var t := IssueOne(s, now, issuer, item).value;
    var e := CredentialIssued(issuer, item, now);
    IssuersAppend(s, t, e);
    LearnersAppend(s, t, e);
    NothingBefore(s, item.id);
    RevokedAppend(s.log, e);
    OnceAppend(s.log, e);
    CredentialAppend(s, t, e, t.credentials[item.id], |s.log|, |s.log|);
  }

  /** A credential that is not revoked now never was. */
  lemma NeverRevoked(s: Store, id: Bytes32) returns (i: nat, k: nat)
    requires CredentialsMirror(s) && RevokedForGood(s.log) && id in s.credentials && s.credentials[id].status != Revoked
    ensures IssuedOnce(s.log) && s.credentials[id].id == id && RecordFrom(s.log, s.credentials[id], i, k)
    ensures forall j | 0 <= j < |s.log| && s.log[j].CredentialRevoked? :: s.log[j].id != id
  {
    i, k :| RecordFrom(s.log, s.credentials[id], i, k);
    assert SetsStatus(s.log[k], id);
    assert forall j | 0 <= j < |s.log| && s.log[j].CredentialRevoked? :: SetsStatus(s.log[j], s.log[j].id);
  }

  lemma StatusKeeps(s: Store, id: Bytes32, status: CredentialStatus, reason: Option<string>, e: Event)
    requires Mirrors(s) && id in s.credentials && s.credentials[id].status != Revoked
    requires SetsStatus(e, id) && !e.CredentialIssued? && status == StatusAfter(e) && reason == ReasonAfter(e)
    ensures Mirrors(PutStatus(s, id, status, reason, e))
  {
    hide RevokedForGood, IssuedOnce, IssuersMirror, LearnersMirror, CredentialsMirror;
    var t := PutStatus(s, id, status, reason, e);
    IssuersAppend(s, t, e);
    LearnersAppend(s, t, e);
    var i, k := NeverRevoked(s, id);
    RevokedAppend(s.log, e);
    OnceAppend(s.log, e);
    CredentialAppend(s, t, e, t.credentials[id], i, |s.log|);
  }

  // ---- Runs ----

  lemma {:induction false} BatchKeeps(s: Store, now: U64, issuer: Address, items: seq<Item>)
    requires Mirrors(s) && IssueFirst(s, now, issuer, items).Ok?
    ensures Mirrors(IssueFirst(s, now, issuer, items).value)
  {
    if items != [] {
      hide Mirrors;
      BatchKeeps(s, now, issuer, items[..|items| - 1]);
      IssueKeeps(IssueFirst(s, now, issuer, items[..|items| - 1]).value, now, issuer, items[|items| - 1]);
    }
  }

  lemma AdminKeeps(s: Store, admin: Address)
    requires Mirrors(s)
    ensures Mirrors(s.(admin := Some(admin), log := s.log + [AdminSet(admin)]))
  {
    var t := s.(admin := Some(admin), log := s.log + [AdminSet(admin)]);
    CredentialsAppend(s, t, AdminSet(admin));
    IssuersAppend(s, t, AdminSet(admin));
  }

  lemma OwnAddress(s: Store, issuer: Address)
    requires Mirrors(s) && issuer in s.issuers
    ensures s.issuers[issuer].address == issuer
  {
  }

  lemma IssuerOpMirrors(s: Store, env: Env, op: Op)
    requires Mirrors(s) && Apply(s, env, op).Ok?
    requires op.RegisterIssuer? || op.UpdateIssuer? || op.DeauthorizeIssuer? || op.ReactivateIssuer?
    ensures Mirrors(Apply(s, env, op).value)
  {
    hide Mirrors;
    if op.issuer in s.issuers { OwnAddress(s, op.issuer); }
    match op
    case RegisterIssuer(issuer, name, uri) =>
      IssuerKeeps(s, IssuerRecord(issuer, name, uri, true, env.now), IssuerRegistered(issuer));
    case UpdateIssuer(issuer, name, uri) =>
      IssuerKeeps(s, s.issuers[issuer].(name := name, metadataUri := uri), IssuerUpdated(issuer));
    case DeauthorizeIssuer(issuer) => IssuerKeeps(s, s.issuers[issuer].(isActive := false), IssuerDeauthorized(issuer));
    case ReactivateIssuer(issuer) => IssuerKeeps(s, s.issuers[issuer].(isActive := true), IssuerReactivated(issuer));
  }

  lemma StatusOpMirrors(s: Store, env: Env, op: Op)
    requires Mirrors(s) && Apply(s, env, op).Ok?
    requires op.Revoke? || op.Suspend? || op.Reactivate?
    ensures Mirrors(Apply(s, env, op).value)
  {
    hide Mirrors;
    match op
    case Revoke(caller, id, reason) => StatusKeeps(s, id, Revoked, Some(reason), CredentialRevoked(caller, id, reason));
    case Suspend(caller, id, reason) =>
      StatusKeeps(s, id, Suspended, Some(reason), CredentialSuspended(caller, id, reason));
    case Reactivate(caller, id) => StatusKeeps(s, id, Active, None, CredentialReactivated(caller, id));
  }

  lemma StepMirrors(s: Store, q: Request)
    requires Mirrors(s)
    ensures Mirrors(Next(s, q))
  {
    hide Mirrors;
    if Apply(s, q.env, q.op).Err? { return; }
    match q.op
    case Initialize(admin) => AdminKeeps(s, admin);
    case SetAdmin(newAdmin) => AdminKeeps(s, newAdmin);
    case Issue(issuer, item) => IssueKeeps(s, q.env.now, issuer, item);
    case BatchIssue(issuer, items) => BatchKeeps(s, q.env.now, issuer, items);
    case Revoke(_, _, _) => StatusOpMirrors(s, q.env, q.op);
    case Suspend(_, _, _) => StatusOpMirrors(s, q.env, q.op);
    case Reactivate(_, _) => StatusOpMirrors(s, q.env, q.op);
    case _ => IssuerOpMirrors(s, q.env, q.op);
  }

  lemma {:induction false} RunMirrors(s: Store, requests: seq<Request>)
    requires Mirrors(s)
    ensures Mirrors(Exec(s, requests))
    decreases |requests|
  {
    hide Mirrors;
    if requests != [] {
      StepMirrors(s, requests[0]);
      RunMirrors(Next(s, requests[0]), requests[1..]);
    }
  }
}
