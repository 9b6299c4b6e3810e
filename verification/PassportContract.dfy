/** The credential registry as the object it is: entry points that fetch a record, assign
    its fields and write it back, and a batch loop over storage
    (`contracts/passport/src/lib.rs`, `storage.rs`).  Each does exactly what `PassportSpec`
    says, and a refused call leaves everything as it was. */
module PassportContract {
  import opened Common
  import opened PassportSpec
  import opened PassportHistory
  import opened PassportTheorems

  function Refusal<T>(r: Result<T, PassportError>): Option<PassportError> { if r.Ok? then None else Some(r.error) }

  class Registry {
    var admin: Option<Address>
    var issuers: map<Address, IssuerRecord>
    var credentials: map<Bytes32, CredentialRecord>
    var learners: map<Address, seq<Bytes32>>
    var log: seq<Event>

    ghost function View(): Store
      reads this
    {
      Store(admin, issuers, credentials, learners, log)
    }

    /** The call did what the specification says: everything on success, nothing on refusal. */
    ghost predicate Did(before: Store, env: Env, op: Op, error: Option<PassportError>)
      reads this
    {
      && Apply(before, env, op) == (if error.None? then Ok(View()) else Err(error.value))
      && (error.Some? ==> View() == before)
    }

    /** Whatever was called, the store still mirrors its history. */
    lemma StaysMirrored(before: Store, env: Env, op: Op, error: Option<PassportError>)
      requires Mirrors(before) && Did(before, env, op, error)
      ensures Mirrors(View())
    {
      StepMirrors(before, Request(env, op));
    }

    constructor ()
      ensures View() == EMPTY
    {
      admin, issuers, credentials, learners, log := None, map[], map[], map[], [];
    }

    method Initialize(env: Env, newAdmin: Address) returns (r: Result<(), PassportError>)
      modifies this
      ensures Did(old(View()), env, PassportSpec.Initialize(newAdmin), Refusal(r))
    {
      if admin.Some? { return Err(AlreadyInitialized); }
      if newAdmin !in env.signers { return Err(MissingSignature); }
      admin := Some(newAdmin);
      log := log + [AdminSet(newAdmin)];
      r := Ok(());
    }

    method SetAdmin(env: Env, newAdmin: Address) returns (r: Result<(), PassportError>)
      modifies this
      ensures Did(old(View()), env, PassportSpec.SetAdmin(newAdmin), Refusal(r))
    {
      if admin.None? { return Err(NotInitialized); }
      if admin.value !in env.signers { return Err(MissingSignature); }
      admin := Some(newAdmin);
      log := log + [AdminSet(newAdmin)];
      r := Ok(());
    }

    method RegisterIssuer(env: Env, issuer: Address, name: string, metadataUri: string)
      returns (r: Result<(), PassportError>)
      modifies this
      ensures Did(old(View()), env, PassportSpec.RegisterIssuer(issuer, name, metadataUri), Refusal(r))
    {
      if admin.None? { return Err(NotInitialized); }
      if admin.value !in env.signers { return Err(MissingSignature); }
      if issuer in issuers { return Err(IssuerAlreadyRegistered); }
      issuers := issuers[issuer := IssuerRecord(issuer, name, metadataUri, true, env.now)];
      log := log + [IssuerRegistered(issuer)];
      r := Ok(());
    }

    method UpdateIssuerMetadata(env: Env, issuer: Address, name: string, metadataUri: string)
      returns (r: Result<(), PassportError>)
      modifies this
      ensures Did(old(View()), env, UpdateIssuer(issuer, name, metadataUri), Refusal(r))
    {
      if !IsIssuerAuthorized(issuer) { return Err(IssuerNotFound); }
      if issuer !in env.signers { return Err(MissingSignature); }
      var record := issuers[issuer];
      record := record.(name := name);
      record := record.(metadataUri := metadataUri);
      issuers := issuers[record.address := record];
      log := log + [IssuerUpdated(issuer)];
      r := Ok(());
    }

    method DeauthorizeIssuer(env: Env, issuer: Address) returns (r: Result<(), PassportError>)
      modifies this
      ensures Did(old(View()), env, PassportSpec.DeauthorizeIssuer(issuer), Refusal(r))
    {
      if admin.None? { return Err(NotInitialized); }
      if admin.value !in env.signers { return Err(MissingSignature); }
      if issuer !in issuers { return Err(IssuerNotFound); }
      var record := issuers[issuer];
      record := record.(isActive := false);
      issuers := issuers[record.address := record];
      log := log + [IssuerDeauthorized(issuer)];
      r := Ok(());
    }

    method ReactivateIssuer(env: Env, issuer: Address) returns (r: Result<(), PassportError>)
      modifies this
      ensures Did(old(View()), env, PassportSpec.ReactivateIssuer(issuer), Refusal(r))
    {
      if admin.None? { return Err(NotInitialized); }
      if admin.value !in env.signers { return Err(MissingSignature); }
      if issuer !in issuers { return Err(IssuerNotFound); }
      var record := issuers[issuer];
      record := record.(isActive := true);
      issuers := issuers[record.address := record];
      log := log + [IssuerReactivated(issuer)];
      r := Ok(());
    }

    predicate IsIssuerAuthorized(issuer: Address)
      reads this
    {
      issuer in issuers && issuers[issuer].isActive
    }

    /** `add_learner_credential`: the id goes to the end of the learner's list. */
    method AddLearnerCredential(recipient: Address, id: Bytes32)
      modifies this`learners
      ensures learners == old(learners)[recipient := old(Learned(View(), recipient)) + [id]]
    {
      var list := if recipient in learners then learners[recipient] else [];
      list := list + [id];
      learners := learners[recipient := list];
    }

    method IssueCredential(env: Env, issuer: Address, item: Item) returns (r: Result<(), PassportError>)
      modifies this
      ensures Did(old(View()), env, Issue(issuer, item), Refusal(r))
    {
      if issuer !in env.signers { return Err(MissingSignature); }
      if !IsIssuerAuthorized(issuer) { return Err(IssuerNotAuthorized); }
      if item.id in credentials { return Err(CredentialAlreadyExists); }
      if item.expiresAt.Some? {
        if item.expiresAt.value <= env.now { return Err(InvalidExpiration); }
      }
      credentials := credentials[item.id :=
        CredentialRecord(item.id, issuer, item.recipient, item.hash, item.templateId, env.now, item.expiresAt,
                         Active, None)];
      AddLearnerCredential(item.recipient, item.id);
      log := log + [CredentialIssued(issuer, item, env.now)];
      r := Ok(());
    }

    /** The batch is one transaction: on a refusal the host discards what the loop wrote.
        It answers what issuing the items one by one would, with their number. */
    method BatchIssueCredentials(env: Env, issuer: Address, items: Items) returns (r: Result<nat, PassportError>)
      modifies this
      ensures Did(old(View()), env, BatchIssue(issuer, items), Refusal(r))
      ensures issuer in env.signers && old(IsIssuerAuthorized(issuer)) ==>
                IssueEach(old(View()), env, issuer, items) == if r.Ok? then Ok(View()) else Err(r.error)
      ensures r.Ok? ==> r.value == |items|
    {
      if issuer !in env.signers { return Err(MissingSignature); }
      if !IsIssuerAuthorized(issuer) { return Err(IssuerNotAuthorized); }
      LoopIsSingles(View(), env, issuer, items);
      var savedCredentials, savedLearners, savedLog := credentials, learners, log;
      var count := 0;
      for i := 0 to |items|
        invariant admin == old(admin) && issuers == old(issuers) && count == i
        invariant IssueFirst(old(View()), env.now, issuer, items[..i]) == Ok(View())
      {
        var item := items[i];
        assert items[..i + 1][..i] == items[..i];
        ghost var outcome := IssueOne(View(), env.now, issuer, item);
        assert IssueFirst(old(View()), env.now, issuer, items[..i + 1]) == outcome;
        var refused: Option<PassportError> := None;
        if item.id in credentials {
          refused := Some(CredentialAlreadyExists);
        } else if item.expiresAt.Some? && item.expiresAt.value <= env.now {
          refused := Some(InvalidExpiration);
        }
        if refused.Some? {
          RefusedThere(old(View()), env.now, issuer, items, i + 1);
          credentials, learners, log := savedCredentials, savedLearners, savedLog;
          return Err(refused.value);
        }
        credentials := credentials[item.id :=
          CredentialRecord(item.id, issuer, item.recipient, item.hash, item.templateId, env.now, item.expiresAt,
                           Active, None)];
        AddLearnerCredential(item.recipient, item.id);
        log := log + [CredentialIssued(issuer, item, env.now)];
        count := count + 1;
      }
      assert items[..|items|] == items;
      r := Ok(count);
    }

    /** A refusal of the first items is the refusal of them all. */
    static lemma {:induction false} RefusedThere(s: Store, now: U64, issuer: Address, items: seq<Item>, n: nat)
      requires n <= |items| && IssueFirst(s, now, issuer, items[..n]).Err?
      ensures IssueFirst(s, now, issuer, items) == IssueFirst(s, now, issuer, items[..n])
      decreases |items|
    {
      if n == |items| {
        assert items[..n] == items;
      } else {
        assert items[..|items| - 1][..n] == items[..n];
        RefusedThere(s, now, issuer, items[..|items| - 1], n);
      }
    }

    method RevokeCredential(env: Env, caller: Address, id: Bytes32, reason: string)
      returns (r: Result<(), PassportError>)
      modifies this
      ensures Did(old(View()), env, Revoke(caller, id, reason), Refusal(r))
    {
      if caller !in env.signers { return Err(MissingSignature); }
      if id !in credentials { return Err(CredentialNotFound); }
      var record := credentials[id];
      if admin.None? { return Err(NotInitialized); }
      if caller != record.issuer && caller != admin.value { return Err(Unauthorized); }
      if record.status == Revoked { return Err(CredentialAlreadyRevoked); }
      record := record.(status := Revoked);
      record := record.(reason := Some(reason));
      credentials := credentials[record.id := record];
      log := log + [CredentialRevoked(caller, id, reason)];
      r := Ok(());
    }

    method SuspendCredential(env: Env, caller: Address, id: Bytes32, reason: string)
      returns (r: Result<(), PassportError>)
      modifies this
      ensures Did(old(View()), env, Suspend(caller, id, reason), Refusal(r))
    {
      if caller !in env.signers { return Err(MissingSignature); }
      if id !in credentials { return Err(CredentialNotFound); }
      var record := credentials[id];
      if admin.None? { return Err(NotInitialized); }
      if caller != record.issuer && caller != admin.value { return Err(Unauthorized); }
      if record.status == Revoked { return Err(CredentialAlreadyRevoked); }
      record := record.(status := Suspended);
      record := record.(reason := Some(reason));
      credentials := credentials[record.id := record];
      log := log + [CredentialSuspended(caller, id, reason)];
      r := Ok(());
    }

    method ReactivateCredential(env: Env, caller: Address, id: Bytes32) returns (r: Result<(), PassportError>)
      modifies this
      ensures Did(old(View()), env, Reactivate(caller, id), Refusal(r))
    {
      if caller !in env.signers { return Err(MissingSignature); }
      if id !in credentials { return Err(CredentialNotFound); }
      var record := credentials[id];
      if admin.None? { return Err(NotInitialized); }
      if caller != record.issuer && caller != admin.value { return Err(Unauthorized); }
      if record.status != Suspended { return Err(CredentialNotSuspended); }
      record := record.(status := Active);
      record := record.(reason := None);
      credentials := credentials[record.id := record];
      log := log + [CredentialReactivated(caller, id)];
      r := Ok(());
    }

    /** The verification anybody can ask for; what it answers is what the history says. */
    method VerifyCredential(env: Env, id: Bytes32, claimed: Bytes32) returns (r: Result<Verification, PassportError>)
      ensures r == Verify(View(), env.now, id, claimed)
      ensures Mirrors(View()) ==> ((r.Ok? && r.value.isValid) <==> ValidByHistory(log, env.now, id, claimed))
    {
      hide Mirrors, ValidByHistory;
      if Mirrors(View()) { ValidFromStore(View(), env.now, id, claimed); }
      if id !in credentials { return Err(CredentialNotFound); }
      var record := credentials[id];
      var issuerAuthorized := IsIssuerAuthorized(record.issuer);
      var hashMatches := record.hash == claimed;
      var isExpired := match record.expiresAt case Some(exp) => env.now >= exp case None => false;
      var isValid := issuerAuthorized && hashMatches && !isExpired && record.status == Active;
      r := Ok(Verification(isValid, record.status, issuerAuthorized, hashMatches, isExpired,
                           record.issuedAt, record.expiresAt, record.issuer, record.recipient));
    }
  }
}
