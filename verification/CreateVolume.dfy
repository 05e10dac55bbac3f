/** CreateVolume as a call that is repeated until it succeeds: what a failure at any point
    leaves behind, and what the next attempt makes of it. */
module CreateVolume {
  import opened Wrappers

  const MAX_QUOTA_SIZE: int := 9223372036854775807

  // ----- quotas

  datatype QuotaType = Hard | Soft
  datatype Quota = Quota(hard: int, soft: int)

  /** NewQuotaCreateRequest */
  function NewQuota(t: QuotaType, limit: int): Quota
  {
    if t == Hard then Quota(limit, limit) else Quota(MAX_QUOTA_SIZE, limit)
  }

  function GetQuotaType(q: Quota): QuotaType
  {
    if q.hard <= q.soft then Hard else Soft
  }

  function GetCapacityLimit(q: Quota): int
  {
    if GetQuotaType(q) == Hard then q.hard else q.soft
  }

  /** A quota reads back the size it was made for: always if it is hard, and up to the
      largest quota if it is soft. */
  lemma QuotaReadsBack(t: QuotaType, limit: int)
    ensures GetCapacityLimit(NewQuota(t, limit)) == limit <==> t == Hard || limit <= MAX_QUOTA_SIZE
  {
  }

  // ----- what exists on the storage

  /** The object behind a volume: the quota and the extended attribute on it, and whether
      its permissions and owner are set. */
  datatype Backing = Backing(made: bool, quota: Option<Quota>, xattr: Option<int>, owned: bool)

  const NOTHING := Backing(false, None, None, false)

  /** What a read of the capacity finds when nothing fails. */
  function Capacity(b: Backing): Option<int>
  {
    if b.quota.Some? then Some(GetCapacityLimit(b.quota.value)) else b.xattr
  }

  /** Where UpdateCapacity writes: a quota, or an attribute on clusters without quotas. */
  datatype Entity = ByQuota | ByXattr

  /** A request; a volume made from a snapshot or a clone may inherit a capacity. */
  datatype Request = Request(capacity: int, enforce: bool, entity: Entity,
                             inheritedQuota: Option<Quota>, inheritedXattr: Option<int>)

  predicate Proper(req: Request)
  {
    0 <= req.capacity <= MAX_QUOTA_SIZE
  }

  function NewObject(req: Request): Backing
  {
    Backing(true, req.inheritedQuota, req.inheritedXattr, false)
  }

  /** UpdateCapacity when it takes effect; an attribute is not written for size zero. */
  function WriteCapacity(b: Backing, req: Request): Backing
  {
    match req.entity
    case ByQuota => b.(quota := Some(NewQuota(if req.enforce then Hard else Soft, req.capacity)))
    case ByXattr => if req.capacity > 0 then b.(xattr := Some(req.capacity)) else b
  }

  // ----- one attempt

  /** How the existence check ends; a directory can be found and the unmount after it fail. */
  datatype Existence = Unknown | Clean | FoundThenFailed

  /** How a call that changes something ends: it may fail before or after its effect. */
  datatype Call = Done | FailedBefore | FailedAfter

  /** Where an attempt fails: each field is the outcome of one step, if it is reached. The
      last is the unmount that follows the making of a directory volume. */
  datatype Attempt = Attempt(existence: Existence, quotaReadOk: bool, xattrReadOk: bool, reserveOk: bool,
                             makeCall: Call, capacityCall: Call, paramsCall: Call, unmountOk: bool)

  const FAULTLESS := Attempt(Clean, true, true, true, Done, Done, Done, true)

  datatype Response = Created | AlreadyExists | Failed

  /** GetCapacity: the quota, else the attribute, else an error (None). A failed read of the
      quota falls through to the attribute. */
  function ReadCapacity(b: Backing, a: Attempt): Option<int>
  {
    if b.quota.Some? && a.quotaReadOk then Some(GetCapacityLimit(b.quota.value))
    else if a.xattrReadOk then b.xattr
    else None
  }

  /** What volumeExistsAndMatchesCapacity learns: after a check that found the object and
      then failed, the capacity is not read. */
  function Learnt(b: Backing, a: Attempt): Option<int>
  {
    if a.existence == Clean then ReadCapacity(b, a) else None
  }

  /** UpdateCapacity and UpdateParams, at the end of both ways to make a volume. */
  function Finish(b: Backing, req: Request, a: Attempt): (Backing, Response)
  {
    if a.capacityCall == FailedBefore then (b, Failed)
    else
      var b' := WriteCapacity(b, req);
      if a.capacityCall == FailedAfter || a.paramsCall == FailedBefore then (b', Failed)
      else (b'.(owned := true), if a.paramsCall == Done then Created else Failed)
  }

  function Make(b: Backing, req: Request, a: Attempt): (Backing, Response)
  {
    if !a.reserveOk || a.makeCall == FailedBefore then (b, Failed)
    else if a.makeCall == FailedAfter then (NewObject(req), Failed)
    else
      var (b', response) := Finish(NewObject(req), req, a);
      (b', if a.unmountOk then response else Failed)
  }

  function Create(b: Backing, req: Request, a: Attempt): (Backing, Response)
  {
    if a.existence == Unknown || (a.existence == FoundThenFailed && !b.made) then (b, Failed)
    else if !b.made then Make(b, req, a)
    else
      match Learnt(b, a)
      case Some(c) => (b, if c == req.capacity then Created else AlreadyExists)
      case None => Finish(b, req, a)
  }

  class Storage {
    var made: bool
    var quota: Option<Quota>
    var xattr: Option<int>
    var owned: bool

    constructor ()
      ensures State() == NOTHING
    {
      made, quota, xattr, owned := false, None, None, false;
    }

    function State(): Backing
      reads this
    {
      Backing(made, quota, xattr, owned)
    }

    method GetCapacity(a: Attempt) returns (capacity: Option<int>)
      ensures capacity == ReadCapacity(State(), a)
    {
      if a.quotaReadOk && quota.Some? {
        return Some(GetCapacityLimit(quota.value));
      }
      if a.xattrReadOk {
        return xattr;
      }
      return None;
    }

    /** volumeExistsAndMatchesCapacity: exists, matches, and whether there was no error. */
    method ExistsAndMatches(capacity: int, a: Attempt) returns (exists_: bool, matches: bool, ok: bool)
      ensures exists_ <==> made && a.existence != Unknown
      ensures ok <==> a.existence == Clean && (made ==> Learnt(State(), a).Some?)
      ensures matches <==> made && Learnt(State(), a) == Some(capacity)
    {
      exists_, ok := made && a.existence != Unknown, a.existence == Clean;
      if !ok || !exists_ {
        return exists_, false, ok;
      }
      var reported := GetCapacity(a);
      if reported.None? {
        return true, false, false;
      }
      return true, reported.value == capacity, true;
    }

    method UpdateCapacity(req: Request, call: Call) returns (ok: bool)
      modifies this
      ensures ok == (call == Done)
      ensures State() == if call == FailedBefore then old(State()) else WriteCapacity(old(State()), req)
    {
      if call == FailedBefore {
        return false;
      }
      if req.entity == ByQuota {
        quota := Some(NewQuota(if req.enforce then Hard else Soft, req.capacity));
      } else if req.capacity > 0 {
        xattr := Some(req.capacity);
      }
      return call == Done;
    }

    method UpdateParams(call: Call) returns (ok: bool)
      modifies this`owned
      ensures ok == (call == Done)
      ensures owned == (old(owned) || call != FailedBefore)
    {
      if call != FailedBefore {
        owned := true;
      }
      return call == Done;
    }

    method CapacityAndParams(req: Request, a: Attempt) returns (response: Response)
      modifies this
      ensures (State(), response) == Finish(old(State()), req, a)
    {
      var ok := UpdateCapacity(req, a.capacityCall);
      if !ok {
        return Failed;
      }
      ok := UpdateParams(a.paramsCall);
      return if ok then Created else Failed;
    }

    /** Volume.Create, after the reservation. */
    method MakeVolume(req: Request, a: Attempt) returns (response: Response)
      modifies this
      ensures (State(), response) == Make(old(State()), req, a)
    {
      if !a.reserveOk || a.makeCall == FailedBefore {
        return Failed;
      }
      made, quota, xattr, owned := true, req.inheritedQuota, req.inheritedXattr, false;
      if a.makeCall == FailedAfter {
        return Failed;
      }
      response := CapacityAndParams(req, a);
      if !a.unmountOk {
        response := Failed;
      }
    }

    /** The decisions of CreateVolume. */
    method CreateVolume(req: Request, a: Attempt) returns (response: Response)
      modifies this
      ensures (State(), response) == Create(old(State()), req, a)
    {
      var exists_, matches, ok := ExistsAndMatches(req.capacity, a);
      if !ok && !exists_ {
        return Failed;
      }
      if exists_ && matches {
        return Created;
      }
      if exists_ && ok {
        return AlreadyExists;
      }
      if exists_ {
        response := CapacityAndParams(req, a);
      } else {
        response := MakeVolume(req, a);
      }
    }
  }

  // ----- repeated attempts

  /** The storage and the responses after a sequence of attempts of one request. */
  function Attempts(b: Backing, req: Request, attempts: seq<Attempt>): (Backing, seq<Response>)
    decreases |attempts|
  {
    if attempts == [] then (b, [])
    else
      var (b', response) := Create(b, req, attempts[0]);
      var (b'', responses) := Attempts(b', req, attempts[1..]);
      (b'', [response] + responses)
  }

  /** The object starts without a capacity that is not the requested one. */
  predicate Unburdened(req: Request)
  {
    && (req.inheritedQuota.Some? ==> GetCapacityLimit(req.inheritedQuota.value) == req.capacity)
    && (req.inheritedXattr.Some? ==> req.inheritedXattr.value == req.capacity)
  }

  /** Whether there is a capacity to read after a write of this request. */
  predicate ReadsBack(req: Request)
  {
    req.entity == ByQuota || req.capacity > 0 || req.inheritedQuota.Some? || req.inheritedXattr.Some?
  }

  /** What attempts of one request leave behind: nothing, or an object that carries at most
      the requested capacity, and at least what it inherited. */
  predicate Resumable(b: Backing, req: Request)
  {
    if b.made then
      && (b.quota.Some? ==> GetCapacityLimit(b.quota.value) == req.capacity)
      && (b.xattr.Some? ==> b.xattr.value == req.capacity)
      && (Capacity(b).Some? ==> ReadsBack(req))
      && (req.inheritedQuota.Some? || req.inheritedXattr.Some? ==> Capacity(b).Some?)
    else b == NOTHING
  }

  lemma FinishIsResumable(b: Backing, req: Request, a: Attempt)
    requires Proper(req) && b.made && Resumable(b, req)
    ensures var (b', response) := Finish(b, req, a);
            && b'.made && Resumable(b', req) && response != AlreadyExists
            && (response == Created ==> (Capacity(b').Some? <==> ReadsBack(req)))
            && (Capacity(b).Some? ==> Capacity(b').Some?)
  {
    QuotaReadsBack(if req.enforce then Hard else Soft, req.capacity);
  }

  /** One attempt, whatever fails: it leaves something resumable, is not told of another
      volume, and if it succeeds the requested capacity is there to read, exactly when such
      a write can be read back. */
  lemma AttemptIsResumable(b: Backing, req: Request, a: Attempt)
    requires Proper(req) && Unburdened(req) && Resumable(b, req)
    ensures var (b', response) := Create(b, req, a);
            && Resumable(b', req)
            && response != AlreadyExists
            && (response == Created ==> b'.made && (Capacity(b') == Some(req.capacity) <==> ReadsBack(req)))
            && (b.made ==> b'.made)
            && (Capacity(b).Some? ==> Capacity(b').Some?)
  {
    FinishIsResumable(if b.made then b else NewObject(req), req, a);
  }

  /** Convergence: however the attempts of a request fail, none is told that another volume
      exists; once one has reported success the object carries the requested capacity,
      exactly when such a write can be read back; and the next faultless attempt succeeds. */
  lemma {:induction false} RepeatingConverges(b: Backing, req: Request, attempts: seq<Attempt>)
    requires Proper(req) && Unburdened(req) && Resumable(b, req)
    ensures var (b', responses) := Attempts(b, req, attempts);
            && Resumable(b', req)
            && AlreadyExists !in responses
            && (Created in responses ==> b'.made && (Capacity(b') == Some(req.capacity) <==> ReadsBack(req)))
            && Create(b', req, FAULTLESS).1 == Created
            && (b.made ==> b'.made)
            && (Capacity(b).Some? ==> Capacity(b').Some?)
    decreases |attempts|
  {
    if attempts != [] {
      AttemptIsResumable(b, req, attempts[0]);
      RepeatingConverges(Create(b, req, attempts[0]).0, req, attempts[1..]);
    }
  }

  /** From nothing, no sequence of attempts is told of another volume exactly when the
      object inherits no other capacity: with one, a single failure is enough. */
  lemma NeverRefusedExactly(req: Request)
    requires Proper(req)
    ensures (forall attempts :: AlreadyExists !in Attempts(NOTHING, req, attempts).1) <==> Unburdened(req)
  {
    if Unburdened(req) {
      forall attempts
        ensures AlreadyExists !in Attempts(NOTHING, req, attempts).1
      {
        RepeatingConverges(NOTHING, req, attempts);
      }
    } else {
      var quotaDiffers := req.inheritedQuota.Some? && GetCapacityLimit(req.inheritedQuota.value) != req.capacity;
      var halfMade := FAULTLESS.(makeCall := FailedAfter);
      TwoAttempts(req, halfMade, FAULTLESS.(quotaReadOk := quotaDiffers));
    }
  }

  lemma TwoAttempts(req: Request, first: Attempt, second: Attempt)
    ensures var b := Create(NOTHING, req, first).0;
            Attempts(NOTHING, req, [first, second]).1
            == [Create(NOTHING, req, first).1, Create(b, req, second).1]
  {
    assert [first, second][1..] == [second];
    OneAttempt(Create(NOTHING, req, first).0, req, second);
  }

  lemma OneAttempt(b: Backing, req: Request, a: Attempt)
    ensures Attempts(b, req, [a]).1 == [Create(b, req, a).1]
  {
    var none: seq<Attempt> := [];
    assert [a][1..] == none;
    assert Attempts(Create(b, req, a).0, req, none).1 == [];
  }

  // ----- whether the size is enforced

  /** The quota of a volume: the limit is hard exactly when the request enforces it. */
  predicate RightQuota(b: Backing, req: Request)
  {
    b.quota.Some? ==>
      && b.quota.value.soft == req.capacity
      && b.quota.value.hard == if req.enforce then req.capacity else 9223372036854775807
  }

  /** However the attempts of a request fail, any quota they leave has the requested limit and
      is hard exactly if the request enforces it; and after a success there is one. */
  lemma {:induction false} QuotaIsEnforcedExactly(b: Backing, req: Request, attempts: seq<Attempt>)
    requires Proper(req) && req.entity == ByQuota && req.inheritedQuota.None? && req.inheritedXattr.None?
    requires RightQuota(b, req) && b.xattr.None? && (b.quota.Some? ==> b.made)
    ensures var (b', responses) := Attempts(b, req, attempts);
            && RightQuota(b', req)
            && (Created in responses || b.quota.Some? ==> b'.quota.Some?)
            && (b'.quota.Some? && req.capacity < MAX_QUOTA_SIZE ==>
                  (GetQuotaType(b'.quota.value) == Hard <==> req.enforce))
    decreases |attempts|
  {
    if attempts != [] {
      QuotaIsEnforcedExactly(Create(b, req, attempts[0]).0, req, attempts[1..]);
    }
  }

  /** On clusters without quotas the size becomes an attribute, and no quota appears. */
  lemma {:induction false} LegacySizeIsAttribute(b: Backing, req: Request, attempts: seq<Attempt>)
    requires req.entity == ByXattr && req.inheritedQuota.None? && req.inheritedXattr.None?
    requires b.quota.None? && (b.xattr.None? || b.xattr == Some(req.capacity))
    ensures var b' := Attempts(b, req, attempts).0;
            b'.quota.None? && (b'.xattr.None? || b'.xattr == Some(req.capacity))
    decreases |attempts|
  {
    if attempts != [] {
      LegacySizeIsAttribute(Create(b, req, attempts[0]).0, req, attempts[1..]);
    }
  }

  /** A quota that can be read decides alone, whatever the attribute says. */
  lemma QuotaComesFirst(b: Backing, req: Request, a: Attempt)
    requires b.made && a.existence == Clean && b.quota.Some? && a.quotaReadOk
    ensures Create(b, req, a)
            == (b, if GetCapacityLimit(b.quota.value) == req.capacity then Created else AlreadyExists)
  {
  }

  /** Nothing is made without a reservation, and permissions come after the size. */
  lemma StepsComeInOrder(b: Backing, req: Request, a: Attempt)
    ensures !b.made && !a.reserveOk ==> Create(b, req, a) == (b, Failed)
    ensures Create(b, req, a).0.owned && !b.owned ==> a.capacityCall == Done && a.paramsCall != FailedBefore
    ensures Create(b, req, a).0.quota != b.quota && b.made ==> a.capacityCall != FailedBefore
  {
  }

  // ----- another request for the same name

  /** A request for the same name and another size is refused exactly when the existence
      check is clean and the capacity can be read; then nothing changes. It takes the volume
      over exactly when the check finds the object and the capacity is not learnt, and
      both updates succeed. */
  lemma OtherSizeIsRefusedExactly(b: Backing, req: Request, attempts: seq<Attempt>, other: Request, a: Attempt)
    requires Proper(req) && Unburdened(req) && Resumable(b, req) && Created in Attempts(b, req, attempts).1
    requires other.capacity != req.capacity
    ensures var b' := Attempts(b, req, attempts).0;
            var (b'', response) := Create(b', other, a);
            && (response == AlreadyExists <==> a.existence == Clean && ReadCapacity(b', a).Some?)
            && (response == AlreadyExists ==> b'' == b')
            && (response == Created <==>
                  && (a.existence == FoundThenFailed || (a.existence == Clean && ReadCapacity(b', a).None?))
                  && a.capacityCall == Done && a.paramsCall == Done)
  {
    RepeatingConverges(b, req, attempts);
  }

  /** A takeover: the quota cannot be read, or the existence check fails after it found the
      object. Either way the other request succeeds and changes the capacity. */
  lemma TakeoverChangesCapacity(req: Request, other: Request, a: Attempt)
    requires Proper(req) && Proper(other) && req.entity == ByQuota && other.entity == ByQuota
    requires a == FAULTLESS.(existence := FoundThenFailed)
          || (a == FAULTLESS.(quotaReadOk := false) && req.inheritedXattr.None?)
    ensures var b := Create(NOTHING, req, FAULTLESS).0;
            var (b', response) := Create(b, other, a);
            && Capacity(b) == Some(req.capacity)
            && response == Created
            && Capacity(b') == Some(other.capacity)
  {
    QuotaReadsBack(if req.enforce then Hard else Soft, req.capacity);
    QuotaReadsBack(if other.enforce then Hard else Soft, other.capacity);
  }

  // ----- permissions and owner

  /** A successful attempt leaves permissions and owner set unless it found them unset on an
      object whose capacity it could learn: that branch does not set them. */
  lemma OwnedExactly(b: Backing, req: Request, a: Attempt)
    requires Create(b, req, a).1 == Created
    ensures Create(b, req, a).0.owned
            <==> b.owned || !b.made || a.existence != Clean || ReadCapacity(b, a).None?
  {
  }

  /** One failure of UpdateParams is therefore not repaired: as long as the object is found
      and its capacity can be read, every later attempt reports success and none sets
      permissions and owner. */
  lemma {:induction false} UnownedForever(b: Backing, req: Request, attempts: seq<Attempt>)
    requires b.made && !b.owned && Capacity(b) == Some(req.capacity)
    requires forall a :: a in attempts ==> a.existence == Clean && ReadCapacity(b, a) == Some(req.capacity)
    ensures Attempts(b, req, attempts).0 == b
    ensures forall r :: r in Attempts(b, req, attempts).1 ==> r == Created
    decreases |attempts|
  {
    if attempts != [] {
      UnownedForever(b, req, attempts[1..]);
    }
  }

  /** Such an object arises from a single failed attempt. */
  lemma ParamsFailureLeavesUnowned(req: Request)
    requires Proper(req) && Unburdened(req) && ReadsBack(req)
    ensures var b := Create(NOTHING, req, FAULTLESS.(paramsCall := FailedBefore)).0;
            b.made && !b.owned && Capacity(b) == Some(req.capacity)
  {
    QuotaReadsBack(if req.enforce then Hard else Soft, req.capacity);
  }
}
