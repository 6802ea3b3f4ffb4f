// Grants, and the in-memory store whose methods are the atomic steps of every grant
// operation (packages/grants/src/stores.ts, packages/core/src/types/index.ts).
module GrantStore {
  import opened Wrappers
  import Text
  import opened CliPermissions
  import GrantReference

  datatype Status = Pending | Approved | Denied | Revoked | Expired | Used | Withdrawn

  datatype GrantType = Once | Timed | Always

  datatype Category = CommandGrant | Delegation | Standing

  // The facts of `execution_context` that bind a shape.
  datatype ShapeTier = ShapeTier(owner: Option<string>, domain: Option<string>, digest: Option<string>)

  datatype Request = Request(
    requester: string,
    targetHost: string,
    audience: string,
    grantType: Option<GrantType>,
    permissions: Option<seq<string>>,
    details: Option<seq<Detail>>,
    command: Option<seq<string>>,
    cmdHash: Option<string>,
    shape: Option<ShapeTier>,
    duration: Option<int>,
    waitsUntil: Option<int>,
    runAs: Option<string>,
    delegator: Option<string>,
    delegate: Option<string>,
    scopes: Option<seq<string>>,
    // presentation and provenance, not authority
    reference: Option<string>,
    batch: Option<string>,
    summary: Option<string>,
    reason: Option<string>,
    submittedBy: Option<string>)

  datatype Grant = Grant(
    id: string,
    category: Option<Category>,
    request: Request,
    brokered: Option<GrantReference.Brokered>,
    status: Status,
    createdAt: nat,
    decidedBy: Option<string>,
    decidedAt: Option<int>,
    expiresAt: Option<int>,
    usedAt: Option<int>,
    withdrawReason: Option<string>)

  // The properties an update may set besides the status.
  datatype Extra = Extra(
    decidedBy: Option<string>,
    decidedAt: Option<int>,
    expiresAt: Option<int>,
    request: Option<Request>)

  const NO_EXTRA := Extra(None, None, None, None)

  datatype Error =
    | NotFound
    | NotPending
    | NotApproved
    | NotRevocable
    | ReferenceConflict
    | InvalidReference
    | UseCreateReferenced
    | BoundToReference   // a referenced grant must retain its exact single-use binding
    | SingleUseOnly      // the operation requires one exact single-use approval
    | DurationRequired
    | ExtensionMismatch  // target host, audience or shape of an extended grant differs
    | NothingToWiden
    | InvalidWidening
    | NotSettled         // a withdrawal found the grant neither withdrawn nor decided

  // The parts of a request its binding text compares (GrantBinding.BindingIsAuthority).
  function AuthorityOf(r: Request): Request {
    r.(reference := None, batch := None, summary := None, reason := None, submittedBy := None)
  }

  predicate Referenced(r: Request) {
    r.reference.Some? && r.reference.value != ""
  }

  function KeyOf(r: Request, brokered: Option<GrantReference.Brokered>): string
    requires r.reference.Some?
  {
    GrantReference.Key(r.requester, r.reference.value, brokered)
  }

  // `assertSameReferencedGrant`
  predicate SameReferenced(existing: Grant, incoming: Grant) {
    && existing.request.reference == incoming.request.reference
    && existing.request.reference.Some?
    && KeyOf(existing.request, existing.brokered) == KeyOf(incoming.request, incoming.brokered)
    && AuthorityOf(existing.request) == AuthorityOf(incoming.request)
  }

  // `assertGrantReferenceRequest` on a request that has a reference: an exact single-use
  // command without delegation or duration.
  predicate ExactCommand(r: Request) {
    && Referenced(r) && Text.Trim(r.reference.value) != ""
    && r.grantType == Some(Once)
    && r.command.Some? && |r.command.value| > 0 && (forall arg :: arg in r.command.value ==> '\0' !in arg)
    && Falsy(r.runAs) && Falsy(r.delegator) && Falsy(r.delegate) && r.scopes.None? && r.duration.None?
  }

  predicate Falsy(s: Option<string>) {
    s.None? || s.value == ""
  }

  // ---------------------------------------------------------------- the store as a value

  predicate HasKey(g: Grant, key: string) {
    g.request.reference.Some? && KeyOf(g.request, g.brokered) == key
  }

  // The first grant, in the given order, of a reference key.
  function FirstOf(grants: map<string, Grant>, order: seq<string>, key: string): Option<Grant> {
    if |order| == 0 then None
    else if order[0] in grants && HasKey(grants[order[0]], key) then Some(grants[order[0]])
    else FirstOf(grants, order[1..], key)
  }

  function Or<T>(a: Option<T>, b: Option<T>): Option<T> {
    if a.Some? then a else b
  }

  function Updated(g: Grant, status: Status, extra: Extra): Grant {
    g.(status := status,
       decidedBy := Or(extra.decidedBy, g.decidedBy),
       decidedAt := Or(extra.decidedAt, g.decidedAt),
       expiresAt := Or(extra.expiresAt, g.expiresAt),
       request := if extra.request.Some? then extra.request.value else g.request)
  }

  predicate Withdrawable(g: Grant) {
    g.status.Pending? || (g.status.Approved? && g.request.grantType == Some(Once))
  }

  datatype Creation = Creation(store: Store, grant: Grant, created: bool)

  // `order` lists the ids in the order in which the grants were first set.
  datatype Store = Store(grants: map<string, Grant>, order: seq<string>, consumed: map<string, string>) {

    function Put(g: Grant): Store {
      this.(grants := grants[g.id := g], order := if g.id in grants then order else order + [g.id])
    }

    function Find(id: string): Option<Grant> {
      if id in grants then Some(grants[id]) else None
    }

    // `createReferenced`
    function CreateReferenced(g: Grant): Result<Creation, Error> {
      if g.request.reference.Some? && !ExactCommand(g.request) then Err(InvalidReference)
      else if !Referenced(g.request) then Err(InvalidReference)
      else
        var existing := FirstOf(grants, order, KeyOf(g.request, g.brokered));
        if existing.None? then Ok(Creation(Put(g), g, true))
        else if SameReferenced(existing.value, g) then Ok(Creation(this, existing.value, false))
        else Err(ReferenceConflict)
    }

    // `save`
    function Save(g: Grant): Result<Store, Error> {
      if g.request.reference.Some? then Err(UseCreateReferenced) else Ok(Put(g))
    }

    // `updateStatus`: unconditional, except that a referenced grant keeps its binding
    function UpdateStatus(id: string, status: Status, extra: Extra): Result<Store, Error> {
      if id !in grants then Err(NotFound)
      else
        var g := grants[id];
        if Referenced(g.request) && extra.request.Some? && !SameReferenced(g, g.(request := extra.request.value))
        then Err(ReferenceConflict)
        else Ok(this.(grants := grants[id := Updated(g, status, extra)]))
    }

    // `claimOnce`
    function ClaimOnce(id: string, at: int): (Store, bool) {
      if id !in grants || !grants[id].status.Approved? then (this, false)
      else (this.(grants := grants[id := grants[id].(status := Used, usedAt := Some(at))]), true)
    }

    // `withdraw`
    function Withdraw(id: string, at: int, reason: Option<string>): (Store, Option<Status>) {
      if id !in grants || !Withdrawable(grants[id]) then (this, None)
      else
        var g := grants[id];
        (this.(grants := grants[id := g.(status := Withdrawn, decidedAt := Some(at),
                                         withdrawReason := Or(reason, g.withdrawReason))]),
         Some(g.status))
    }

    // `markConsumed`
    function MarkConsumed(id: string, jti: string): (Store, bool) {
      if id !in grants || id in consumed then (this, false)
      else (this.(consumed := consumed[id := jti]), true)
    }
  }

  const EMPTY_STORE := Store(map[], [], map[])

  // ---------------------------------------------------------------- the store as an object

  class InMemoryGrantStore {
    var grants: map<string, Grant>
    var order: seq<string>
    var consumed: map<string, string>

    function Value(): Store
      reads this
    {
      Store(grants, order, consumed)
    }

    constructor ()
      ensures Value() == EMPTY_STORE
    {
      grants := map[];
      order := [];
      consumed := map[];
    }

    method CreateReferenced(g: Grant) returns (r: Result<(Grant, bool), Error>)
      modifies this
      ensures match old(Value()).CreateReferenced(g)
              case Ok(c) => Value() == c.store && r == Ok((c.grant, c.created))
              case Err(e) => Value() == old(Value()) && r == Err(e)
    {
      if g.request.reference.Some? && !ExactCommand(g.request) {
        return Err(InvalidReference);
      }
      if !Referenced(g.request) {
        return Err(InvalidReference);
      }
      var key := KeyOf(g.request, g.brokered);
      var n := 0;
      while n < |order|
        invariant n <= |order|
        invariant FirstOf(grants, order, key) == FirstOf(grants, order[n..], key)
      {
        if order[n] in grants && HasKey(grants[order[n]], key) {
          var existing := grants[order[n]];
          if !SameReferenced(existing, g) {
            return Err(ReferenceConflict);
          }
          return Ok((existing, false));
        }
        n := n + 1;
      }
      SetGrant(g);
      return Ok((g, true));
    }

    method SetGrant(g: Grant)
      modifies this`grants, this`order
      ensures Value() == old(Value()).Put(g)
    {
      if g.id !in grants {
        order := order + [g.id];
      }
      grants := grants[g.id := g];
    }

    method Save(g: Grant) returns (r: Option<Error>)
      modifies this`grants, this`order
      ensures match old(Value()).Save(g)
              case Ok(s) => Value() == s && r.None?
              case Err(e) => Value() == old(Value()) && r == Some(e)
    {
      if g.request.reference.Some? {
        return Some(UseCreateReferenced);
      }
      SetGrant(g);
      return None;
    }

    method FindById(id: string) returns (g: Option<Grant>)
      ensures g == Value().Find(id)
    {
      return if id in grants then Some(grants[id]) else None;
    }

    method UpdateStatus(id: string, status: Status, extra: Extra) returns (r: Option<Error>)
      modifies this`grants
      ensures match old(Value()).UpdateStatus(id, status, extra)
              case Ok(s) => Value() == s && r.None?
              case Err(e) => Value() == old(Value()) && r == Some(e)
    {
      if id !in grants {
        return Some(NotFound);
      }
      var g := grants[id];
      if Referenced(g.request) && extra.request.Some? && !SameReferenced(g, g.(request := extra.request.value)) {
        return Some(ReferenceConflict);
      }
      grants := grants[id := Updated(g, status, extra)];
      return None;
    }

    method ClaimOnce(id: string, usedAt: int) returns (claimed: bool)
      modifies this`grants
      ensures (Value(), claimed) == old(Value()).ClaimOnce(id, usedAt)
    {
      if id !in grants || grants[id].status != Approved {
        return false;
      }
      grants := grants[id := grants[id].(status := Used, usedAt := Some(usedAt))];
      return true;
    }

    method Withdraw(id: string, at: int, reason: Option<string>) returns (previous: Option<Status>)
      modifies this`grants
      ensures (Value(), previous) == old(Value()).Withdraw(id, at, reason)
    {
      if id !in grants || !Withdrawable(grants[id]) {
        return None;
      }
      var g := grants[id];
      grants := grants[id := g.(status := Withdrawn, decidedAt := Some(at),
                                withdrawReason := Or(reason, g.withdrawReason))];
      return Some(g.status);
    }

    method MarkConsumed(id: string, jti: string) returns (first: bool)
      modifies this`consumed
      ensures (Value(), first) == old(Value()).MarkConsumed(id, jti)
    {
      if id !in grants || id in consumed {
        return false;
      }
      consumed := consumed[id := jti];
      return true;
    }
  }
}
