/** What a run of the credential registry guarantees. */
module PassportTheorems {
  import opened Common
  import opened PassportSpec
  import opened PassportHistory

  // ---- Verification is a function of the history ----

  lemma MirrorsEmpty()
    ensures Mirrors(EMPTY)
  {
  }

  lemma OfficeFromStore(s: Store, issuer: Address)
    requires Mirrors(s)
    ensures Authorized(s, issuer) <==> InOffice(s.log, issuer)
  {
    if issuer in s.issuers {
      var k: nat :| IssuerFrom(s.log, s.issuers[issuer], k);
    }
  }

  lemma ValidFromStore(s: Store, now: U64, id: Bytes32, claimed: Bytes32)
    requires Mirrors(s)
    ensures var v := Verify(s, now, id, claimed);
            (v.Ok? && v.value.isValid) <==> ValidByHistory(s.log, now, id, claimed)
  {
    if id in s.credentials {
      var i: nat, k: nat :| RecordFrom(s.log, s.credentials[id], i, k);
      OfficeFromStore(s, s.log[i].caller);
      assert Standing(s.log, id) <==> s.credentials[id].status == Active;
    } else {
      assert forall i | 0 <= i < |s.log| && Issues(s.log[i], id) :: SetsStatus(s.log[i], id);
    }
  }

  /** At any time, after any run, a credential verifies as valid exactly when the history of
      accepted operations says so. */
  lemma ValidityIsHistory(requests: seq<Request>, now: U64, id: Bytes32, claimed: Bytes32)
    ensures var s := Exec(EMPTY, requests);
            var v := Verify(s, now, id, claimed);
            (v.Ok? && v.value.isValid) <==> ValidByHistory(s.log, now, id, claimed)
  {
    RunMirrors(EMPTY, requests);
    ValidFromStore(Exec(EMPTY, requests), now, id, claimed);
  }

  // ---- History only grows ----

  lemma {:induction false} BatchLog(s: Store, now: U64, issuer: Address, items: seq<Item>)
    requires IssueFirst(s, now, issuer, items).Ok?
    ensures s.log <= IssueFirst(s, now, issuer, items).value.log
  {
    if items != [] { BatchLog(s, now, issuer, items[..|items| - 1]); }
  }

  lemma StepLog(s: Store, q: Request)
    ensures s.log <= Next(s, q).log
  {
    if Apply(s, q.env, q.op).Ok? && q.op.BatchIssue? { BatchLog(s, q.env.now, q.op.issuer, q.op.items); }
  }

  lemma {:induction false} LogGrows(s: Store, requests: seq<Request>)
    ensures s.log <= Exec(s, requests).log
    decreases |requests|
  {
    hide Next;
    if requests != [] {
      StepLog(s, requests[0]);
      LogGrows(Next(s, requests[0]), requests[1..]);
    }
  }

  lemma {:induction false} ExecAppend(s: Store, first: seq<Request>, rest: seq<Request>)
    ensures Exec(s, first + rest) == Exec(Exec(s, first), rest)
    decreases |first|
  {
    if first == [] {
      assert first + rest == rest;
    } else {
      assert (first + rest)[1..] == first[1..] + rest;
      ExecAppend(Next(s, first[0]), first[1..], rest);
    }
  }

  /** Once a revocation has been accepted, nothing that happens later makes the credential
      valid again. */
  lemma RevokedForever(first: seq<Request>, rest: seq<Request>, k: nat, now: U64, claimed: Bytes32)
    requires k < |Exec(EMPTY, first).log| && Exec(EMPTY, first).log[k].CredentialRevoked?
    ensures var id := Exec(EMPTY, first).log[k].id;
            var v := Verify(Exec(EMPTY, first + rest), now, id, claimed);
            v.Ok? && !v.value.isValid && v.value.status == Revoked
  {
    var early, late := Exec(EMPTY, first), Exec(EMPTY, first + rest);
    ExecAppend(EMPTY, first, rest);
    LogGrows(early, rest);
    RunMirrors(EMPTY, first + rest);
    var id := early.log[k].id;
    assert late.log[k] == early.log[k] && SetsStatus(late.log[k], id);
    var i: nat, j: nat :| RecordFrom(late.log, late.credentials[id], i, j);
    assert SetsStatus(late.log[j], id);
  }

  // ---- The learner's list ----

  ghost predicate WasIssued(h: seq<Event>, a: Address, id: Bytes32) {
    exists i :: 0 <= i < |h| && Issues(h[i], id) && h[i].item.recipient == a
  }

  lemma WasIssuedStep(h: seq<Event>, e: Event, a: Address, id: Bytes32)
    ensures WasIssued(h + [e], a, id) <==> WasIssued(h, a, id) || (Issues(e, id) && e.item.recipient == a)
  {
    if WasIssued(h, a, id) {
      var i :| 0 <= i < |h| && Issues(h[i], id) && h[i].item.recipient == a;
      assert Issues((h + [e])[i], id);
    }
    if Issues(e, id) && e.item.recipient == a { assert Issues((h + [e])[|h|], id); }
  }

  lemma {:induction false} IssuedToHas(h: seq<Event>, a: Address, id: Bytes32)
    ensures id in IssuedTo(h, a) <==> WasIssued(h, a, id)
  {
    if h != [] {
      var n := |h| - 1;
      IssuedToHas(h[..n], a, id);
      assert h == h[..n] + [h[n]];
      WasIssuedStep(h[..n], h[n], a, id);
      hide WasIssued;
    }
  }

  lemma {:induction false} IssuedToDistinct(h: seq<Event>, a: Address)
    requires IssuedOnce(h)
    ensures Distinct(IssuedTo(h, a))
  {
    if h != [] {
      var n := |h| - 1;
      IssuedToDistinct(h[..n], a);
      if h[n].CredentialIssued? { IssuedToHas(h[..n], a, h[n].item.id); }
    }
  }

  /** Each learner's list holds, without repetition and in order of issue, exactly the ids of
      the credentials issued to that learner; and a reason is stored exactly for the
      credentials that are not active. */
  lemma LearnerIndex(requests: seq<Request>, a: Address, id: Bytes32)
    ensures var s := Exec(EMPTY, requests);
            && Learned(s, a) == IssuedTo(s.log, a)
            && Distinct(Learned(s, a))
            && (id in Learned(s, a) <==> id in s.credentials && s.credentials[id].recipient == a)
            && (id in s.credentials ==> (s.credentials[id].reason.Some? <==> s.credentials[id].status != Active))
  {
    RunMirrors(EMPTY, requests);
    var s := Exec(EMPTY, requests);
    IssuedToHas(s.log, a, id);
    IssuedToDistinct(s.log, a);
    if id in s.credentials {
      var i: nat, k: nat :| RecordFrom(s.log, s.credentials[id], i, k);
      assert Issues(s.log[i], id);
    }
    if id in Learned(s, a) {
      var i :| 0 <= i < |s.log| && Issues(s.log[i], id) && s.log[i].item.recipient == a;
      assert SetsStatus(s.log[i], id);
    }
  }

  // ---- Who may do what ----

  function AdminAt(h: seq<Event>): Option<Address> {
    if h == [] then None
    else if h[|h| - 1].AdminSet? then Some(h[|h| - 1].admin)
    else AdminAt(h[..|h| - 1])
  }

  /** At position `k`: an issue by an issuer then in office; any other operation on a
      credential by its issuer or by the administrator of that moment. */
  ghost predicate Entitled(h: seq<Event>, k: nat)
    requires k < |h|
  {
    match h[k]
    case CredentialIssued(caller, _, _) => InOffice(h[..k], caller)
    case CredentialRevoked(caller, id, _) => Manages(h[..k], caller, id)
    case CredentialSuspended(caller, id, _) => Manages(h[..k], caller, id)
    case CredentialReactivated(caller, id) => Manages(h[..k], caller, id)
    case _ => true
  }

  ghost predicate Manages(h: seq<Event>, caller: Address, id: Bytes32) {
    exists i :: 0 <= i < |h| && Issues(h[i], id) && (caller == h[i].caller || AdminAt(h) == Some(caller))
  }

  ghost predicate Legitimate(s: Store) {
    && s.admin == AdminAt(s.log)
    && forall k: nat | k < |s.log| :: Entitled(s.log, k)
  }

  lemma LegitimateAppend(s: Store, t: Store, e: Event)
    requires Legitimate(s) && t.log == s.log + [e]
    requires t.admin == if e.AdminSet? then Some(e.admin) else s.admin
    requires Entitled(s.log + [e], |s.log|)
    ensures Legitimate(t)
  {
    assert t.log[..|s.log|] == s.log;
    forall k: nat | k < |t.log|
      ensures Entitled(t.log, k)
    {
      if k < |s.log| { assert t.log[..k] == s.log[..k] && Entitled(s.log, k); }
    }
  }

  lemma IssueLegitimate(s: Store, now: U64, issuer: Address, item: Item)
    requires Mirrors(s) && Legitimate(s) && Authorized(s, issuer)
    requires IssueOne(s, now, issuer, item).Ok?
    ensures Legitimate(IssueOne(s, now, issuer, item).value)
  {
    OfficeFromStore(s, issuer);
    assert (s.log + [CredentialIssued(issuer, item, now)])[..|s.log|] == s.log;
    LegitimateAppend(s, IssueOne(s, now, issuer, item).value, CredentialIssued(issuer, item, now));
  }

  lemma {:induction false} BatchLegitimate(s: Store, now: U64, issuer: Address, items: seq<Item>)
    requires Mirrors(s) && Legitimate(s) && Authorized(s, issuer)
    requires IssueFirst(s, now, issuer, items).Ok?
    ensures Legitimate(IssueFirst(s, now, issuer, items).value)
    ensures IssueFirst(s, now, issuer, items).value.issuers == s.issuers
  {
    hide Mirrors, Legitimate;
    if items != [] {
      var n := |items| - 1;
      BatchLegitimate(s, now, issuer, items[..n]);
      BatchKeeps(s, now, issuer, items[..n]);
      IssueLegitimate(IssueFirst(s, now, issuer, items[..n]).value, now, issuer, items[n]);
    }
  }

  lemma ManagesFromStore(s: Store, env: Env, caller: Address, id: Bytes32)
    requires Mirrors(s) && Legitimate(s) && MayManage(s, env, caller, id).None?
    ensures Manages(s.log, caller, id)
  {
    var i: nat, k: nat :| RecordFrom(s.log, s.credentials[id], i, k);
    assert Issues(s.log[i], id);
  }

  lemma StatusLegitimate(s: Store, env: Env, op: Op)
    requires Mirrors(s) && Legitimate(s) && Apply(s, env, op).Ok?
    requires op.Revoke? || op.Suspend? || op.Reactivate?
    ensures Legitimate(Apply(s, env, op).value)
  {
    ManagesFromStore(s, env, op.caller, op.id);
    hide Mirrors, Legitimate, Manages;
    var t := Apply(s, env, op).value;
    var e := t.log[|s.log|];
    assert (s.log + [e])[..|s.log|] == s.log;
    LegitimateAppend(s, t, e);
  }

  lemma StepLegitimate(s: Store, q: Request)
    requires Mirrors(s) && Legitimate(s)
    ensures Legitimate(Next(s, q))
  {
    hide Mirrors, Legitimate;
    if Apply(s, q.env, q.op).Err? { return; }
    var t := Next(s, q);
    match q.op
    case Issue(issuer, item) => IssueLegitimate(s, q.env.now, issuer, item);
    case BatchIssue(issuer, items) => BatchLegitimate(s, q.env.now, issuer, items);
    case Revoke(_, _, _) => StatusLegitimate(s, q.env, q.op);
    case Suspend(_, _, _) => StatusLegitimate(s, q.env, q.op);
    case Reactivate(_, _) => StatusLegitimate(s, q.env, q.op);
    case _ => LegitimateAppend(s, t, t.log[|s.log|]);
  }

  /** In any run, credentials were issued only by issuers in office at that moment, and
      revoked, suspended or reactivated only by their issuer or the administrator of that
      moment. */
  lemma {:induction false} RunLegitimate(s: Store, requests: seq<Request>)
    requires Mirrors(s) && Legitimate(s)
    ensures Legitimate(Exec(s, requests))
    decreases |requests|
  {
    hide Mirrors, Legitimate;
    if requests != [] {
      StepMirrors(s, requests[0]);
      StepLegitimate(s, requests[0]);
      RunLegitimate(Next(s, requests[0]), requests[1..]);
    }
  }

  lemma OnlyTheEntitled(requests: seq<Request>, k: nat)
    requires k < |Exec(EMPTY, requests).log|
    ensures Entitled(Exec(EMPTY, requests).log, k)
  {
    MirrorsEmpty();
    RunLegitimate(EMPTY, requests);
  }

  // ---- Batches ----

  /** The same items issued one call after the other, stopping at the first refusal. */
  function IssueEach(s: Store, env: Env, issuer: Address, items: seq<Item>): Result<Store, PassportError>
    decreases |items|
  {
    if items == [] then Ok(s)
    else
      var first := Apply(s, env, Issue(issuer, items[0]));
      if first.Err? then first else IssueEach(first.value, env, issuer, items[1..])
  }

  lemma {:induction false} IssueFirstStep(s: Store, now: U64, issuer: Address, items: seq<Item>)
    requires items != []
    ensures var first := IssueOne(s, now, issuer, items[0]);
            IssueFirst(s, now, issuer, items)
            == if first.Err? then first else IssueFirst(first.value, now, issuer, items[1..])
    decreases |items|
  {
    var n := |items| - 1;
    if n > 0 {
      IssueFirstStep(s, now, issuer, items[..n]);
      assert items[1..][..n - 1] == items[..n][1..];
    }
  }

  lemma {:induction false} LoopIsSingles(s: Store, env: Env, issuer: Address, items: seq<Item>)
    requires MayIssue(s, env, issuer).None?
    ensures IssueFirst(s, env.now, issuer, items) == IssueEach(s, env, issuer, items)
    decreases |items|
  {
    if items != [] {
      IssueFirstStep(s, env.now, issuer, items);
      var first := IssueOne(s, env.now, issuer, items[0]);
      if first.Ok? { LoopIsSingles(first.value, env, issuer, items[1..]); }
    }
  }

  /** A batch equals the sequence of single issues - the same new store, or the same error -
      exactly when it is not empty or the issuer may issue at all. */
  lemma BatchIsSingles(s: Store, env: Env, issuer: Address, items: Items)
    ensures Apply(s, env, BatchIssue(issuer, items)) == IssueEach(s, env, issuer, items)
            <==> items != [] || (issuer in env.signers && Authorized(s, issuer))
  {
    if MayIssue(s, env, issuer).None? { LoopIsSingles(s, env, issuer, items); }
  }

  /** The exception is real: nothing to issue, yet the batch is refused. */
  lemma EmptyBatchRefused(now: U64, issuer: Address)
    ensures IssueEach(EMPTY, Env(now, {issuer}), issuer, []) == Ok(EMPTY)
    ensures Apply(EMPTY, Env(now, {issuer}), BatchIssue(issuer, [])) == Err(IssuerNotAuthorized)
  {
  }

  ghost predicate Unexpired(item: Item, now: U64) { item.expiresAt.Some? ==> now < item.expiresAt.value }

  ghost predicate Fresh(s: Store, now: U64, items: seq<Item>) {
    && (forall i | 0 <= i < |items| :: items[i].id !in s.credentials && Unexpired(items[i], now))
    && (forall i, j | 0 <= i < j < |items| :: items[i].id != items[j].id)
  }

  function Ids(items: seq<Item>): set<Bytes32> { set i | 0 <= i < |items| :: items[i].id }

  lemma FreshStep(s: Store, now: U64, items: seq<Item>)
    requires items != []
    ensures var n := |items| - 1;
            && Ids(items) == Ids(items[..n]) + {items[n].id}
            && (Fresh(s, now, items) <==>
                  && Fresh(s, now, items[..n]) && Unexpired(items[n], now)
                  && items[n].id !in s.credentials && items[n].id !in Ids(items[..n]))
  {
    var n := |items| - 1;
    var before := items[..n];
    assert forall i | 0 <= i < n :: before[i] == items[i];
  }

  lemma {:induction false} LoopAccepts(s: Store, now: U64, issuer: Address, items: seq<Item>)
    ensures var r := IssueFirst(s, now, issuer, items);
            && (r.Ok? <==> Fresh(s, now, items))
            && (r.Ok? ==> r.value.credentials.Keys == s.credentials.Keys + Ids(items))
  {
    if items != [] {
      LoopAccepts(s, now, issuer, items[..|items| - 1]);
      FreshStep(s, now, items);
      hide Fresh, Ids;
    }
  }

  function IssueEvents(now: U64, issuer: Address, items: seq<Item>): seq<Event> {
    seq(|items|, i requires 0 <= i < |items| => CredentialIssued(issuer, items[i], now))
  }

  lemma {:induction false} LoopLog(s: Store, now: U64, issuer: Address, items: seq<Item>)
    requires IssueFirst(s, now, issuer, items).Ok?
    ensures IssueFirst(s, now, issuer, items).value.log == s.log + IssueEvents(now, issuer, items)
  {
    if items != [] {
      var n := |items| - 1;
      LoopLog(s, now, issuer, items[..n]);
      assert IssueEvents(now, issuer, items)
          == IssueEvents(now, issuer, items[..n]) + [CredentialIssued(issuer, items[n], now)];
    }
  }

  /** When a batch is accepted: signed by an issuer in office, no id taken or repeated inside
      the batch, no expiry reached; then every item is issued, in order. */
  lemma BatchAccepted(s: Store, env: Env, issuer: Address, items: Items)
    ensures var r := Apply(s, env, BatchIssue(issuer, items));
            && (r.Ok? <==> issuer in env.signers && Authorized(s, issuer) && Fresh(s, env.now, items))
            && (r.Ok? ==> r.value.log == s.log + IssueEvents(env.now, issuer, items))
  {
    LoopAccepts(s, env.now, issuer, items);
    if IssueFirst(s, env.now, issuer, items).Ok? { LoopLog(s, env.now, issuer, items); }
  }
}
