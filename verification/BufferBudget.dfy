/** The body-buffer budget: a shared 64-bit counter and move-only permits over it. */
module BufferBudget {
  import opened Common
  import opened BudgetLedger

  datatype Plan = NoReservation | Reserve(bytes: uint64) | TooLarge

  /** What to reserve before reading a body whose header has been parsed. */
  function PlanBodyReservation(contentLength: Option<uint64>, messageComplete: bool, bodyLimit: uint64): (p: Plan)
    // the reservation is exactly the largest body the parser may still yield
    ensures p.Reserve? ==> ParserYields(contentLength, bodyLimit, p.bytes)
    ensures p.Reserve? ==> forall n: uint64 :: ParserYields(contentLength, bodyLimit, n) ==> n <= p.bytes
    ensures p.NoReservation? <==> messageComplete
    ensures p.TooLarge? <==> !messageComplete && contentLength.Some? && !ParserYields(contentLength, bodyLimit, contentLength.value)
  {
    if messageComplete then NoReservation
    else if contentLength.Some? && contentLength.value > bodyLimit then TooLarge
    else Reserve(if contentLength.Some? then contentLength.value else bodyLimit)
  }

  /** The parser's contract: a body is never longer than its declared length, nor than the body limit. */
  predicate ParserYields(contentLength: Option<uint64>, bodyLimit: uint64, bodySize: uint64) {
    bodySize <= bodyLimit && (contentLength.Some? ==> bodySize <= contentLength.value)
  }

  class BufferBudgetControl {
    const maxBytes: uint64
    var currentBytes: uint64
    ghost var held: map<BufferBudgetPermit, nat>   // live permits that own a reservation

    ghost function Book(): Ledger<BufferBudgetPermit>
      reads this
    {
      Ledger(maxBytes as int, currentBytes as int, held)
    }

    ghost predicate Valid()
      reads this, held.Keys
    {
      && Book().Valid()
      && (forall p :: p in held ==> p.control == this && p.bytes as int == held[p])
    }

    constructor (maxBytes: uint64)
      ensures Valid() && Book() == Ledger(maxBytes as int, 0, map[])
    {
      this.maxBytes, currentBytes, held := maxBytes, 0, map[];
    }

    /** `BufferBudgetState::try_acquire`: a permit if and only if the bytes fit under the limit. */
    method TryAcquire(bytes: uint64) returns (permit: BufferBudgetPermit?)
      requires Valid()
      modifies this
      ensures Valid()
      ensures permit != null <==> old(Book()).HasRoom(bytes as int)
      ensures permit != null <==> old(currentBytes) as int + bytes as int <= maxBytes as int
      ensures permit == null ==> Book() == old(Book())
      ensures permit != null ==> fresh(permit) && permit.Valid() && permit.control == this && permit.bytes == bytes
      ensures permit != null ==> Book() == old(Book()).Acquired(permit, bytes as int)
    {
      if bytes > maxBytes - currentBytes {
        return null;
      }
      permit := new BufferBudgetPermit();
      AcquireConserves(Book(), permit, bytes as int);
      currentBytes := currentBytes + bytes;
      permit.control, permit.bytes := this, bytes;
      held := held[permit := bytes as int];
    }
  }

  class BufferBudgetPermit {
    var control: BufferBudgetControl?
    var bytes: uint64

    ghost predicate Valid()
      reads this, control, if control == null then {} else control.held.Keys
    {
      if control == null then bytes == 0 else control.Valid() && this in control.held
    }

    constructor ()
      ensures control == null && bytes == 0 && Valid()
    {
      control, bytes := null, 0;
    }

    /** Gives the reservation back, once. */
    method Release()
      requires Valid()
      modifies this, control
      ensures Valid() && control == null
      ensures old(control) != null ==>
        old(control).Valid() && old(control).Book() == old(control.Book()).Released(this)
    {
      if control == null {
        return;
      }
      var owner := control;
      ReleaseConserves(owner.Book(), this);
      if bytes <= owner.currentBytes {
        owner.currentBytes := owner.currentBytes - bytes;
      }
      owner.held := owner.held - {this};
      bytes := 0;
      control := null;
    }

    /** Fails only for an empty permit or a larger size. */
    method ShrinkTo(size: uint64) returns (ok: bool)
      requires Valid()
      modifies this, control
      ensures Valid() && control == old(control)
      ensures ok <==> control != null && size <= old(bytes)
      ensures control != null ==> control.Book() == old(control.Book()).Shrunk(this, size as int)
      ensures bytes == if ok then size else old(bytes)
    {
      if control == null {
        return false;
      }
      ShrinkConserves(control.Book(), this, size as int);
      if size > bytes {
        return false;
      }
      var released := bytes - size;
      if released > control.currentBytes {
        return false;
      }
      control.currentBytes := control.currentBytes - released;
      bytes := size;
      control.held := control.held[this := size as int];
      return true;
    }

    /** The second half of a move: an empty permit takes over the other's reservation. */
    method TakeOver(other: BufferBudgetPermit)
      requires other != this && control == null && bytes == 0 && other.Valid()
      requires other.control != null ==> this !in other.control.held
      modifies this, other, other.control
      ensures Valid() && other.Valid() && other.control == null && control == old(other.control) && bytes == old(other.bytes)
      ensures control != null ==> control.Book() == old(other.control.Book()).Handed(other, this)
    {
      control, bytes := other.control, other.bytes;
      other.control, other.bytes := null, 0;
      if control != null {
        HandConserves(control.Book(), other, this);
        control.held := (control.held - {other})[this := control.held[other]];
      }
    }

    /** Move assignment: what this permit held goes back to its budget, and what the other held changes hands. */
    method MoveFrom(other: BufferBudgetPermit)
      requires Valid() && other.Valid()
      modifies this, other, control, other.control
      ensures Valid() && other.Valid() && control == old(other.control) && bytes == old(other.bytes)
      ensures other != this ==> other.control == null
      ensures other != this && control != null && control != old(control) ==>
        control.Book() == old(other.control.Book()).Handed(other, this)
      ensures old(control) != null ==> old(control).Valid()
      ensures old(control) != null ==>
        old(control).Book() == if old(control) == old(other.control) then old(control.Book()).Moved(other, this) else old(control.Book()).Released(this)
    {
      if this == other {
        return;
      }
      ghost var mine, theirs := control, other.control;
      assert theirs != null && theirs != mine ==> this !in theirs.held;
      Release();
      assert theirs != null ==> theirs.Valid() && other in theirs.held && this !in theirs.held;
      TakeOver(other);
    }
  }

  // ----- reading a body

  datatype Reservation = NoBody | BodyTooLarge | OverBudget(bytes: uint64) | Reserved(permit: BufferBudgetPermit)

  /** What a permit must hold while a body is being read, whatever other permits do meanwhile. */
  ghost predicate Covers(permit: BufferBudgetPermit, contentLength: Option<uint64>, bodyLimit: uint64)
    reads permit
  {
    permit.control != null && forall n: uint64 :: ParserYields(contentLength, bodyLimit, n) ==> n <= permit.bytes
  }

  /** The handler that has the header: plan and reserve, or refuse. */
  method ReserveBody(budget: BufferBudgetControl, contentLength: Option<uint64>, messageComplete: bool, bodyLimit: uint64)
    returns (outcome: Reservation)
    requires budget.Valid()
    modifies budget
    ensures budget.Valid()
    ensures outcome.NoBody? <==> messageComplete
    ensures outcome.BodyTooLarge? <==> !messageComplete && contentLength.Some? && contentLength.value > bodyLimit
    ensures outcome.OverBudget? ==>
      PlanBodyReservation(contentLength, messageComplete, bodyLimit) == Reserve(outcome.bytes) && !old(budget.Book()).HasRoom(outcome.bytes as int)
    ensures outcome.Reserved? ==> fresh(outcome.permit) && outcome.permit.Valid() && outcome.permit.control == budget
    ensures outcome.Reserved? ==> Covers(outcome.permit, contentLength, bodyLimit)
    ensures outcome.Reserved? ==>
      PlanBodyReservation(contentLength, messageComplete, bodyLimit) == Reserve(outcome.permit.bytes)
    ensures budget.Book() == if outcome.Reserved? then old(budget.Book()).Acquired(outcome.permit, outcome.permit.bytes as int) else old(budget.Book())
  {
    var plan := PlanBodyReservation(contentLength, messageComplete, bodyLimit);
    if plan.NoReservation? {
      return NoBody;
    }
    if plan.TooLarge? {
      return BodyTooLarge;
    }
    var permit := budget.TryAcquire(plan.bytes);
    if permit == null {
      return OverBudget(plan.bytes);
    }
    return Reserved(permit);
  }

  /**
   The handler that has the body, any time later: given the parser's contract the shrink cannot fail, and
   what stays reserved is the size of the body.
   */
  method BodyArrived(permit: BufferBudgetPermit, contentLength: Option<uint64>, bodyLimit: uint64, bodySize: uint64) returns (shrunk: bool)
    requires permit.Valid() && Covers(permit, contentLength, bodyLimit) && ParserYields(contentLength, bodyLimit, bodySize)
    modifies permit, permit.control
    ensures shrunk && permit.Valid() && permit.control == old(permit.control) && permit.bytes == bodySize
    ensures permit.control.Book() == old(permit.control.Book()).Shrunk(permit, bodySize as int)
    ensures permit.control.currentBytes as int == old(permit.control.currentBytes) as int - (old(permit.bytes) as int - bodySize as int)
  {
    ShrinkConserves(permit.control.Book(), permit, bodySize as int);
    shrunk := permit.ShrinkTo(bodySize);
  }
}
