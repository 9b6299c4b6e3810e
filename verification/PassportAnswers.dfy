/** When each operation of the credential registry is accepted, in terms of the history of accepted
    operations, and what it leaves (`contracts/passport/src/lib.rs:21-150, 205-420`). */
module PassportAnswers {
  import opened Common
  import opened PassportSpec
  import opened PassportHistory
  import opened PassportTheorems

  /** A store that some run leads to. */
  ghost predicate Reachable(s: Store) {
    exists requests :: s == Exec(EMPTY, requests)
  }

  ghost predicate EverRegistered(h: seq<Event>, issuer: Address) {
    exists i :: 0 <= i < |h| && h[i] == IssuerRegistered(issuer)
  }

  /** Nothing is registered or issued before there is an administrator, and no issuer is known
      that was not registered. */
  ghost predicate Founded(s: Store) {
    && (s.admin.None? ==> s.issuers == map[] && s.credentials == map[])
    && forall a | a in s.issuers :: s.issuers[a].address == a && EverRegistered(s.log, a)
  }

  lemma {:induction false} BatchNeedsIssuer(s: Store, now: U64, issuer: Address, items: seq<Item>)
    ensures IssueFirst(s, now, issuer, items).Ok? ==>
              IssueFirst(s, now, issuer, items).value.admin == s.admin
              && IssueFirst(s, now, issuer, items).value.issuers == s.issuers
  {
    if items != [] { BatchNeedsIssuer(s, now, issuer, items[..|items| - 1]); }
  }

  lemma StillRegistered(h: seq<Event>, h': seq<Event>, issuer: Address)
    requires h <= h' && EverRegistered(h, issuer)
    ensures EverRegistered(h', issuer)
  {
    var i :| 0 <= i < |h| && h[i] == IssuerRegistered(issuer);
    assert h'[i] == IssuerRegistered(issuer);
  }

  /** Only a registration makes an issuer known. */
  lemma KnownBefore(s: Store, q: Request, a: Address)
    requires a in Next(s, q).issuers && forall b | b in s.issuers :: s.issuers[b].address == b
    ensures Next(s, q).issuers[a].address == a
    ensures a in s.issuers || (Next(s, q).log == s.log + [IssuerRegistered(a)])
  {
    if q.op.BatchIssue? { BatchNeedsIssuer(s, q.env.now, q.op.issuer, q.op.items); }
  }

  lemma AdminFirst(s: Store, q: Request)
    requires s.admin.None? ==> s.issuers == map[] && s.credentials == map[]
    ensures var t := Next(s, q);
            t.admin.None? ==> t.issuers == map[] && t.credentials == map[]
  {
    if q.op.BatchIssue? { BatchNeedsIssuer(s, q.env.now, q.op.issuer, q.op.items); }
  }

  lemma StepFounded(s: Store, q: Request)
    requires Founded(s)
    ensures Founded(Next(s, q))
  {
    AdminFirst(s, q);
    StepLog(s, q);
    hide Next;
    var t := Next(s, q);
    forall a | a in t.issuers
      ensures t.issuers[a].address == a && EverRegistered(t.log, a)
    {
      KnownBefore(s, q, a);
      if a in s.issuers {
        StillRegistered(s.log, t.log, a);
      } else {
        assert t.log[|s.log|] == IssuerRegistered(a);
      }
    }
  }

  lemma {:induction false} RunFounded(s: Store, requests: seq<Request>)
    requires Founded(s)
    ensures Founded(Exec(s, requests))
    decreases |requests|
  {
    hide Founded, Next;
    if requests != [] {
      StepFounded(s, requests[0]);
      RunFounded(Next(s, requests[0]), requests[1..]);
    }
  }

  lemma InOrder(s: Store)
    requires Reachable(s)
    ensures Mirrors(s) && Legitimate(s) && Founded(s)
  {
    var requests :| s == Exec(EMPTY, requests);
    hide Mirrors, Legitimate;
    MirrorsEmpty();
    LegitimateEmpty();
    RunMirrors(EMPTY, requests);
    RunLegitimate(EMPTY, requests);
    RunFounded(EMPTY, requests);
  }

  lemma LegitimateEmpty()
    ensures Legitimate(EMPTY)
  {
  }

  // ---- What the history says ----

  ghost predicate EverIssued(h: seq<Event>, id: Bytes32) {
    exists i :: 0 <= i < |h| && h[i].CredentialIssued? && h[i].item.id == id
  }

  ghost predicate EverRevoked(h: seq<Event>, id: Bytes32) {
    exists i :: 0 <= i < |h| && h[i].CredentialRevoked? && h[i].id == id
  }

  /** The last operation on the credential was a suspension. */
  ghost predicate UnderSuspension(h: seq<Event>, id: Bytes32) {
    exists k: nat :: LastStatusAt(h, id, k) && h[k].CredentialSuspended?
  }

  lemma StatusTold(s: Store, id: Bytes32)
    requires Mirrors(s)
    ensures id in s.credentials <==> EverIssued(s.log, id)
    ensures id in s.credentials ==>
              && (s.credentials[id].status == Revoked <==> EverRevoked(s.log, id))
              && (s.credentials[id].status == Suspended <==> UnderSuspension(s.log, id))
  {
    if id in s.credentials {
      var i: nat, k: nat :| RecordFrom(s.log, s.credentials[id], i, k);
      assert Issues(s.log[i], id);
      assert SetsStatus(s.log[k], id);
      if s.credentials[id].status != Revoked {
        var i', k' := NeverRevoked(s, id);
      } else {
        assert s.log[k].CredentialRevoked?;
      }
    }
    if EverIssued(s.log, id) {
      var i :| 0 <= i < |s.log| && s.log[i].CredentialIssued? && s.log[i].item.id == id;
      assert SetsStatus(s.log[i], id);
    }
  }

  lemma TouchTold(s: Store, caller: Address, id: Bytes32)
    requires Mirrors(s) && Legitimate(s) && Founded(s) && id in s.credentials
    ensures s.admin.Some?
    ensures Manages(s.log, caller, id) <==> caller == s.credentials[id].issuer || caller == s.admin.value
  {
    var i: nat, k: nat :| RecordFrom(s.log, s.credentials[id], i, k);
    assert Issues(s.log[i], id);
    if Manages(s.log, caller, id) {
      var j :| 0 <= j < |s.log| && Issues(s.log[j], id)
               && (caller == s.log[j].caller || AdminAt(s.log) == Some(caller));
      assert i == j;
    }
  }

  // ---- The status operations ----

  /** The record of `id` with another status and reason, one more event, and nothing else. */
  ghost predicate StatusSet(s: Store, t: Store, id: Bytes32, status: CredentialStatus, reason: Option<string>,
                            e: Event)
  {
    && id in s.credentials
    && t == s.(credentials := s.credentials[id := s.credentials[id].(status := status, reason := reason)],
               log := s.log + [e])
  }

  /** What `caller` is answered before the status is looked at. */
  ghost predicate Barred(s: Store, env: Env, caller: Address, id: Bytes32, error: PassportError) {
    if caller !in env.signers then error == MissingSignature
    else if !EverIssued(s.log, id) then error == CredentialNotFound
    else !Manages(s.log, caller, id) && error == Unauthorized
  }

  lemma Admitted(s: Store, env: Env, caller: Address, id: Bytes32)
    requires Reachable(s)
    ensures Mirrors(s)
    ensures MayManage(s, env, caller, id).None? <==> caller in env.signers && Manages(s.log, caller, id)
    ensures MayManage(s, env, caller, id).Some? ==> Barred(s, env, caller, id, MayManage(s, env, caller, id).value)
    ensures Manages(s.log, caller, id) ==> id in s.credentials
    ensures id in s.credentials ==> s.credentials[id].id == id
  {
    InOrder(s);
    StatusTold(s, id);
    if id in s.credentials { TouchTold(s, caller, id); }
  }

  /** Revoking is accepted exactly for a signed call of the issuer or the administrator on a
      credential never revoked before - suspended or not. */
  lemma RevokeAnswers(s: Store, env: Env, caller: Address, id: Bytes32, reason: string)
    requires Reachable(s)
    ensures var r := Apply(s, env, Revoke(caller, id, reason));
            var admitted := caller in env.signers && Manages(s.log, caller, id);
            && (r.Ok? <==> admitted && !EverRevoked(s.log, id))
            && (r == Err(CredentialAlreadyRevoked) <==> admitted && EverRevoked(s.log, id))
            && (!admitted ==> r.Err? && Barred(s, env, caller, id, r.error))
            && (r.Ok? ==> StatusSet(s, r.value, id, Revoked, Some(reason), CredentialRevoked(caller, id, reason)))
  {
    Admitted(s, env, caller, id);
    StatusTold(s, id);
    hide Mirrors, Reachable, Manages, EverRevoked;
  }

  lemma SuspendAnswers(s: Store, env: Env, caller: Address, id: Bytes32, reason: string)
    requires Reachable(s)
    ensures var r := Apply(s, env, Suspend(caller, id, reason));
            var admitted := caller in env.signers && Manages(s.log, caller, id);
            && (r.Ok? <==> admitted && !EverRevoked(s.log, id))
            && (r == Err(CredentialAlreadyRevoked) <==> admitted && EverRevoked(s.log, id))
            && (!admitted ==> r.Err? && Barred(s, env, caller, id, r.error))
            && (r.Ok? ==> StatusSet(s, r.value, id, Suspended, Some(reason), CredentialSuspended(caller, id, reason)))
  {
    Admitted(s, env, caller, id);
    StatusTold(s, id);
    hide Mirrors, Reachable, Manages, EverRevoked;
  }

  /** Reactivation needs the last operation on the credential to be a suspension. */
  lemma ReactivateAnswers(s: Store, env: Env, caller: Address, id: Bytes32)
    requires Reachable(s)
    ensures var r := Apply(s, env, Reactivate(caller, id));
            var admitted := caller in env.signers && Manages(s.log, caller, id);
            && (r.Ok? <==> admitted && UnderSuspension(s.log, id))
            && (r == Err(CredentialNotSuspended) <==> admitted && !UnderSuspension(s.log, id))
            && (!admitted ==> r.Err? && Barred(s, env, caller, id, r.error))
            && (r.Ok? ==> StatusSet(s, r.value, id, Active, None, CredentialReactivated(caller, id)))
  {
    Admitted(s, env, caller, id);
    StatusTold(s, id);
    hide Mirrors, Reachable, Manages, UnderSuspension;
  }

  // ---- Issuing ----

  /** Issuing is accepted exactly for a signed call of an issuer in office, an id never used and an
      expiry still ahead; the credential is stored as given, active, and goes to the end of the
      learner's list. */
  lemma IssueAnswers(s: Store, env: Env, issuer: Address, item: Item)
    requires Reachable(s)
    ensures var r := Apply(s, env, Issue(issuer, item));
            var signed, inOffice := issuer in env.signers, InOffice(s.log, issuer);
            var used, ahead := EverIssued(s.log, item.id), item.expiresAt.Some? ==> env.now < item.expiresAt.value;
            && (r.Ok? <==> signed && inOffice && !used && ahead)
            && (r == Err(MissingSignature) <==> !signed)
            && (r == Err(IssuerNotAuthorized) <==> signed && !inOffice)
            && (r == Err(CredentialAlreadyExists) <==> signed && inOffice && used)
            && (r == Err(InvalidExpiration) <==> signed && inOffice && !used && !ahead)
            && (r.Ok? ==>
                  var t := r.value;
                  && item.id in t.credentials
                  && t == s.(credentials := s.credentials[item.id := t.credentials[item.id]],
                             learners := s.learners[item.recipient := Learned(s, item.recipient) + [item.id]],
                             log := s.log + [CredentialIssued(issuer, item, env.now)])
                  && var c := t.credentials[item.id];
                     && c.id == item.id && c.issuer == issuer && c.recipient == item.recipient && c.hash == item.hash
                     && c.templateId == item.templateId && c.issuedAt == env.now && c.expiresAt == item.expiresAt
                     && c.status == Active && c.reason.None?)
  {
    InOrder(s);
    StatusTold(s, item.id);
    OfficeFromStore(s, issuer);
    hide Mirrors, Legitimate, Reachable, EverIssued, InOffice;
  }

  // ---- Issuers and the administrator ----

  lemma RegisteredTold(s: Store, issuer: Address)
    requires Reachable(s)
    ensures issuer in s.issuers <==> EverRegistered(s.log, issuer)
    ensures issuer in s.issuers ==> s.issuers[issuer].address == issuer
    ensures s.admin == AdminAt(s.log)
  {
    InOrder(s);
    if EverRegistered(s.log, issuer) {
      var i :| 0 <= i < |s.log| && s.log[i] == IssuerRegistered(issuer);
      assert SwitchesIssuer(s.log[i], issuer);
    }
  }

  /** What an administrator's operation answers before it looks at the issuer. */
  ghost predicate Ungoverned(s: Store, env: Env, error: PassportError) {
    if AdminAt(s.log).None? then error == NotInitialized
    else AdminAt(s.log).value !in env.signers && error == MissingSignature
  }

  ghost predicate ByAdministrator(s: Store, env: Env) {
    AdminAt(s.log).Some? && AdminAt(s.log).value in env.signers
  }

  /** An issuer is registered once, by the administrator, and is then active under the given name. */
  lemma RegisterAnswers(s: Store, env: Env, issuer: Address, name: string, uri: string)
    requires Reachable(s)
    ensures var r := Apply(s, env, RegisterIssuer(issuer, name, uri));
            && (r.Ok? <==> ByAdministrator(s, env) && !EverRegistered(s.log, issuer))
            && (r == Err(IssuerAlreadyRegistered) <==> ByAdministrator(s, env) && EverRegistered(s.log, issuer))
            && (!ByAdministrator(s, env) ==> r.Err? && Ungoverned(s, env, r.error))
            && (r.Ok? ==>
                  && issuer in r.value.issuers
                  && r.value == s.(issuers := s.issuers[issuer := r.value.issuers[issuer]],
                                   log := s.log + [IssuerRegistered(issuer)])
                  && var record := r.value.issuers[issuer];
                     && record.address == issuer && record.name == name && record.metadataUri == uri
                     && record.isActive && record.registeredAt == env.now)
  {
    RegisteredTold(s, issuer);
    hide Reachable, EverRegistered;
  }

  /** Switching a registered issuer off or on again is for the administrator. */
  lemma SwitchAnswers(s: Store, env: Env, issuer: Address, on: bool)
    requires Reachable(s)
    ensures var r := Apply(s, env, if on then ReactivateIssuer(issuer) else DeauthorizeIssuer(issuer));
            && (r.Ok? <==> ByAdministrator(s, env) && EverRegistered(s.log, issuer))
            && (r == Err(IssuerNotFound) <==> ByAdministrator(s, env) && !EverRegistered(s.log, issuer))
            && (!ByAdministrator(s, env) ==> r.Err? && Ungoverned(s, env, r.error))
            && (r.Ok? ==>
                  && issuer in s.issuers
                  && r.value == s.(issuers := s.issuers[issuer := s.issuers[issuer].(isActive := on)],
                                   log := s.log + [if on then IssuerReactivated(issuer)
                                                   else IssuerDeauthorized(issuer)]))
  {
    RegisteredTold(s, issuer);
    hide Reachable, EverRegistered;
  }

  /** An issuer in office may change its own name and address, and nothing else. */
  lemma UpdateAnswers(s: Store, env: Env, issuer: Address, name: string, uri: string)
    requires Reachable(s)
    ensures var r := Apply(s, env, UpdateIssuer(issuer, name, uri));
            && (r.Ok? <==> InOffice(s.log, issuer) && issuer in env.signers)
            && (r == Err(IssuerNotFound) <==> !InOffice(s.log, issuer))
            && (r == Err(MissingSignature) <==> InOffice(s.log, issuer) && issuer !in env.signers)
            && (r.Ok? ==>
                  && issuer in s.issuers
                  && r.value == s.(issuers := s.issuers[issuer := s.issuers[issuer].(name := name, metadataUri := uri)],
                                   log := s.log + [IssuerUpdated(issuer)]))
  {
    InOrder(s);
    RegisteredTold(s, issuer);
    OfficeFromStore(s, issuer);
    hide Reachable, Mirrors, Legitimate, InOffice;
  }

  /** The first administrator sets itself once; afterwards only the present one names the next. */
  lemma AdminAnswers(s: Store, env: Env, admin: Address)
    requires Reachable(s)
    ensures var r := Apply(s, env, Initialize(admin));
            && (r.Ok? <==> AdminAt(s.log).None? && admin in env.signers)
            && (r == Err(AlreadyInitialized) <==> AdminAt(s.log).Some?)
            && (r == Err(MissingSignature) <==> AdminAt(s.log).None? && admin !in env.signers)
            && (r.Ok? ==> r.value == s.(admin := Some(admin), log := s.log + [AdminSet(admin)]))
    ensures var r := Apply(s, env, SetAdmin(admin));
            && (r.Ok? <==> ByAdministrator(s, env))
            && (!ByAdministrator(s, env) ==> r.Err? && Ungoverned(s, env, r.error))
            && (r.Ok? ==> r.value == s.(admin := Some(admin), log := s.log + [AdminSet(admin)]))
  {
    RegisteredTold(s, admin);
    hide Reachable;
  }

  // ---- Verification ----

  /** The answer to a verification, part by part, from the operation that issued the credential and
      what happened since. */
  ghost predicate Told(h: seq<Event>, now: U64, id: Bytes32, claimed: Bytes32, v: Verification, i: nat) {
    && i < |h| && h[i].CredentialIssued? && h[i].item.id == id
    && v.issuer == h[i].caller && v.recipient == h[i].item.recipient && v.issuedAt == h[i].at
    && v.expiresAt == h[i].item.expiresAt
    && (v.hashMatches <==> h[i].item.hash == claimed)
    && (v.isExpired <==> h[i].item.expiresAt.Some? && now >= h[i].item.expiresAt.value)
    && (v.issuerAuthorized <==> InOffice(h, h[i].caller))
    && (v.status == Revoked <==> EverRevoked(h, id))
    && (v.status == Suspended <==> UnderSuspension(h, id))
    && (v.isValid <==> v.hashMatches && !v.isExpired && v.issuerAuthorized && v.status == Active)
  }

  lemma VerifyAnswers(s: Store, now: U64, id: Bytes32, claimed: Bytes32)
    requires Reachable(s)
    ensures var r := Verify(s, now, id, claimed);
            && (r.Ok? <==> EverIssued(s.log, id))
            && (r.Err? ==> r.error == CredentialNotFound)
            && (r.Ok? ==> exists i :: Told(s.log, now, id, claimed, r.value, i))
  {
    InOrder(s);
    StatusTold(s, id);
    if id in s.credentials {
      var i: nat, k: nat :| RecordFrom(s.log, s.credentials[id], i, k);
      OfficeFromStore(s, s.log[i].caller);
      hide Mirrors, Legitimate, Reachable, EverRevoked, UnderSuspension, InOffice, LastStatusAt, StatusAfter;
      assert Told(s.log, now, id, claimed, Verify(s, now, id, claimed).value, i);
    }
  }
}
