/** The credential registry (`contracts/passport/src/lib.rs`, `storage.rs`, `types.rs`):
    what each operation does to the store, as a function of the store before the call. */
module PassportSpec {
  import opened Common

  datatype PassportError =
    | NotInitialized | AlreadyInitialized | Unauthorized | IssuerNotAuthorized | CredentialAlreadyExists
    | CredentialNotFound | CredentialAlreadyRevoked | CredentialNotSuspended | InvalidExpiration
    | IssuerAlreadyRegistered | IssuerNotFound
    | MissingSignature  // the host aborts the call: `require_auth`

  datatype CredentialStatus = Active | Revoked | Suspended

  datatype IssuerRecord = IssuerRecord(
    address: Address, name: string, metadataUri: string, isActive: bool, registeredAt: U64)

  datatype CredentialRecord = CredentialRecord(
    id: Bytes32, issuer: Address, recipient: Address, hash: Bytes32, templateId: string,
    issuedAt: U64, expiresAt: Option<U64>, status: CredentialStatus, reason: Option<string>)

  /** One credential to issue; the arguments of a single issue have the same parts. */
  datatype Item = Item(recipient: Address, id: Bytes32, hash: Bytes32, templateId: string, expiresAt: Option<U64>)

  const U32_MAX := 0xFFFF_FFFF

  /** A host vector has at most this many elements. */
  type Items = xs: seq<Item> | |xs| <= U32_MAX

  /** What is accepted, in order of acceptance. */
  datatype Event =
    | AdminSet(admin: Address)
    | IssuerRegistered(issuer: Address)
    | IssuerUpdated(issuer: Address)
    | IssuerDeauthorized(issuer: Address)
    | IssuerReactivated(issuer: Address)
    | CredentialIssued(caller: Address, item: Item, at: U64)
    | CredentialRevoked(caller: Address, id: Bytes32, reason: string)
    | CredentialSuspended(caller: Address, id: Bytes32, reason: string)
    | CredentialReactivated(caller: Address, id: Bytes32)

  datatype Store = Store(
    admin: Option<Address>, issuers: map<Address, IssuerRecord>,
    credentials: map<Bytes32, CredentialRecord>, learners: map<Address, seq<Bytes32>>, log: seq<Event>)

  const EMPTY := Store(None, map[], map[], map[], [])

  /** The ledger time of a call and who signed it. */
  datatype Env = Env(now: U64, signers: set<Address>)

  datatype Op =
    | Initialize(admin: Address)
    | SetAdmin(newAdmin: Address)
    | RegisterIssuer(issuer: Address, name: string, metadataUri: string)
    | UpdateIssuer(issuer: Address, name: string, metadataUri: string)
    | DeauthorizeIssuer(issuer: Address)
    | ReactivateIssuer(issuer: Address)
    | Issue(issuer: Address, item: Item)
    | BatchIssue(issuer: Address, items: Items)
    | Revoke(caller: Address, id: Bytes32, reason: string)
    | Suspend(caller: Address, id: Bytes32, reason: string)
    | Reactivate(caller: Address, id: Bytes32)

  predicate Authorized(s: Store, issuer: Address) { issuer in s.issuers && s.issuers[issuer].isActive }

  function Learned(s: Store, recipient: Address): seq<Bytes32> {
    if recipient in s.learners then s.learners[recipient] else []
  }

  function ByAdmin(s: Store, env: Env): Option<PassportError> {
    if s.admin.None? then Some(NotInitialized)
    else if s.admin.value !in env.signers then Some(MissingSignature)
    else None
  }

  function PutIssuer(s: Store, record: IssuerRecord, e: Event): Store {
    s.(issuers := s.issuers[record.address := record], log := s.log + [e])
  }

  function RegisterIssuerStore(s: Store, env: Env, op: Op): Result<Store, PassportError>
    requires op.RegisterIssuer?
  {
    if ByAdmin(s, env).Some? then Err(ByAdmin(s, env).value)
    else if op.issuer in s.issuers then Err(IssuerAlreadyRegistered)
    else Ok(PutIssuer(s, IssuerRecord(op.issuer, op.name, op.metadataUri, true, env.now), IssuerRegistered(op.issuer)))
  }

  function UpdateIssuerStore(s: Store, env: Env, op: Op): Result<Store, PassportError>
    requires op.UpdateIssuer?
  {
    if !Authorized(s, op.issuer) then Err(IssuerNotFound)
    else if op.issuer !in env.signers then Err(MissingSignature)
    else Ok(PutIssuer(s, s.issuers[op.issuer].(name := op.name, metadataUri := op.metadataUri),
                      IssuerUpdated(op.issuer)))
  }

  function SwitchIssuer(s: Store, env: Env, issuer: Address, on: bool): Result<Store, PassportError> {
    if ByAdmin(s, env).Some? then Err(ByAdmin(s, env).value)
    else if issuer !in s.issuers then Err(IssuerNotFound)
    else Ok(PutIssuer(s, s.issuers[issuer].(isActive := on),
                      if on then IssuerReactivated(issuer) else IssuerDeauthorized(issuer)))
  }

  function MayIssue(s: Store, env: Env, issuer: Address): Option<PassportError> {
    if issuer !in env.signers then Some(MissingSignature)
    else if !Authorized(s, issuer) then Some(IssuerNotAuthorized)
    else None
  }

  function IssueOne(s: Store, now: U64, issuer: Address, item: Item): Result<Store, PassportError> {
    if item.id in s.credentials then Err(CredentialAlreadyExists)
    else if item.expiresAt.Some? && item.expiresAt.value <= now then Err(InvalidExpiration)
    else
      Ok(s.(credentials := s.credentials[item.id :=
                             CredentialRecord(item.id, issuer, item.recipient, item.hash, item.templateId, now,
                                              item.expiresAt, Active, None)],
            learners := s.learners[item.recipient := Learned(s, item.recipient) + [item.id]],
            log := s.log + [CredentialIssued(issuer, item, now)]))
  }

  function IssueFirst(s: Store, now: U64, issuer: Address, items: seq<Item>): Result<Store, PassportError> {
    if items == [] then Ok(s)
    else
      var before := IssueFirst(s, now, issuer, items[..|items| - 1]);
      if before.Err? then before else IssueOne(before.value, now, issuer, items[|items| - 1])
  }

  /** Whether `caller` may touch the credential at all. */
  function MayManage(s: Store, env: Env, caller: Address, id: Bytes32): Option<PassportError> {
    if caller !in env.signers then Some(MissingSignature)
    else if id !in s.credentials then Some(CredentialNotFound)
    else if s.admin.None? then Some(NotInitialized)
    else if caller != s.credentials[id].issuer && caller != s.admin.value then Some(Unauthorized)
    else None
  }

  function PutCredential(s: Store, record: CredentialRecord, e: Event): Store {
    s.(credentials := s.credentials[record.id := record], log := s.log + [e])
  }

  function PutStatus(s: Store, id: Bytes32, status: CredentialStatus, reason: Option<string>, e: Event): Store
    requires id in s.credentials
  {
    PutCredential(s, s.credentials[id].(status := status, reason := reason), e)
  }

  function RevokeStore(s: Store, env: Env, caller: Address, id: Bytes32, reason: string): Result<Store, PassportError> {
    if MayManage(s, env, caller, id).Some? then Err(MayManage(s, env, caller, id).value)
    else if s.credentials[id].status == Revoked then Err(CredentialAlreadyRevoked)
    else Ok(PutStatus(s, id, Revoked, Some(reason), CredentialRevoked(caller, id, reason)))
  }

  function SuspendStore(s: Store, env: Env, caller: Address, id: Bytes32, reason: string)
    : Result<Store, PassportError>
  {
    if MayManage(s, env, caller, id).Some? then Err(MayManage(s, env, caller, id).value)
    else if s.credentials[id].status == Revoked then Err(CredentialAlreadyRevoked)
    else Ok(PutStatus(s, id, Suspended, Some(reason), CredentialSuspended(caller, id, reason)))
  }

  function ReactivateStore(s: Store, env: Env, caller: Address, id: Bytes32): Result<Store, PassportError> {
    if MayManage(s, env, caller, id).Some? then Err(MayManage(s, env, caller, id).value)
    else if s.credentials[id].status != Suspended then Err(CredentialNotSuspended)
    else Ok(PutStatus(s, id, Active, None, CredentialReactivated(caller, id)))
  }

  function Apply(s: Store, env: Env, op: Op): Result<Store, PassportError> {
    match op
    case Initialize(admin) =>
      if s.admin.Some? then Err(AlreadyInitialized)
      else if admin !in env.signers then Err(MissingSignature)
      else Ok(s.(admin := Some(admin), log := s.log + [AdminSet(admin)]))
    case SetAdmin(newAdmin) =>
      if ByAdmin(s, env).Some? then Err(ByAdmin(s, env).value)
      else Ok(s.(admin := Some(newAdmin), log := s.log + [AdminSet(newAdmin)]))
    case RegisterIssuer(_, _, _) => RegisterIssuerStore(s, env, op)
    case UpdateIssuer(_, _, _) => UpdateIssuerStore(s, env, op)
    case DeauthorizeIssuer(issuer) => SwitchIssuer(s, env, issuer, false)
    case ReactivateIssuer(issuer) => SwitchIssuer(s, env, issuer, true)
    case Issue(issuer, item) =>
      if MayIssue(s, env, issuer).Some? then Err(MayIssue(s, env, issuer).value)
      else IssueOne(s, env.now, issuer, item)
    case BatchIssue(issuer, items) =>
      if MayIssue(s, env, issuer).Some? then Err(MayIssue(s, env, issuer).value)
      else IssueFirst(s, env.now, issuer, items)
    case Revoke(caller, id, reason) => RevokeStore(s, env, caller, id, reason)
    case Suspend(caller, id, reason) => SuspendStore(s, env, caller, id, reason)
    case Reactivate(caller, id) => ReactivateStore(s, env, caller, id)
  }

  datatype Request = Request(env: Env, op: Op)

  /** All or nothing: a refused call leaves the store as it was. */
  function Next(s: Store, q: Request): Store {
    if Apply(s, q.env, q.op).Ok? then Apply(s, q.env, q.op).value else s
  }

  function Exec(s: Store, requests: seq<Request>): Store
    decreases |requests|
  {
    if requests == [] then s else Exec(Next(s, requests[0]), requests[1..])
  }

  // ---- Verification ----

  datatype Verification = Verification(
    isValid: bool, status: CredentialStatus, issuerAuthorized: bool, hashMatches: bool, isExpired: bool,
    issuedAt: U64, expiresAt: Option<U64>, issuer: Address, recipient: Address)

  function Verify(s: Store, now: U64, id: Bytes32, claimed: Bytes32): Result<Verification, PassportError> {
    if id !in s.credentials then Err(CredentialNotFound)
    else
      var c := s.credentials[id];
      var authorized := Authorized(s, c.issuer);
      var matches := c.hash == claimed;
      var expired := c.expiresAt.Some? && now >= c.expiresAt.value;
      Ok(Verification(authorized && matches && !expired && c.status == Active, c.status, authorized, matches, expired,
                      c.issuedAt, c.expiresAt, c.issuer, c.recipient))
  }
}
