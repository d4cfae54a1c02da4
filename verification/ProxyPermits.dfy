/** Concurrent-proxy permits: move-only tokens counted by a shared state. */
module ProxyPermits {

  class ProxyAdmissionState {
    const maxProxies: nat
    var active: nat
    ghost var holders: set<ProxyPermit>   // the live permits that own capacity

    /** The counter is the number of owning permits, and never exceeds the limit. */
    ghost predicate Valid()
      reads this, holders
    {
      && active == |holders| <= maxProxies
      && (forall p :: p in holders ==> p.state == this)
    }

    constructor (maxProxies: nat)
      ensures Valid() && active == 0 && this.maxProxies == maxProxies && holders == {}
    {
      this.maxProxies, active, holders := maxProxies, 0, {};
    }
  }

  class ProxyPermit {
    var state: ProxyAdmissionState?

    /** An owning permit is one of its state's holders, and no one else's. */
    ghost predicate Valid()
      reads this, state, if state == null then {} else state.holders
    {
      state != null ==> state.Valid() && this in state.holders
    }

    constructor ()
      ensures state == null && Valid()
    {
      state := null;
    }

    /** Gives the capacity back exactly once; releasing twice changes nothing. */
    method Release()
      requires Valid()
      modifies this, state
      ensures state == null && Valid()
      ensures old(state) != null ==>
        && old(state).Valid()
        && old(state).holders == old(state.holders) - {this}
        && old(state).active == old(state.active) - 1
    {
      if state == null {
        return;
      }
      var owner := state;
      state := null;
      owner.holders := owner.holders - {this};
      if owner.active > 0 {
        owner.active := owner.active - 1;
      }
    }

    /** Move construction: the capacity changes hands and is not counted twice. */
    method TakeOver(other: ProxyPermit)
      requires other != this && state == null && other.Valid()
      requires other.state != null ==> this !in other.state.holders
      modifies this, other, other.state
      ensures Valid() && other.state == null && state == old(other.state)
      ensures state != null ==> state.holders == old(other.state.holders) - {other} + {this}
      ensures state != null ==> state.active == old(other.state.active)
    {
      state := other.state;
      other.state := null;
      if state != null {
        state.holders := state.holders - {other} + {this};
      }
    }

    /** Move assignment: the old capacity is released and the other permit's is taken over, uncounted twice. */
    method MoveFrom(other: ProxyPermit)
      requires Valid() && other.Valid()
      modifies this, other, state, other.state
      ensures Valid()
      ensures other == this ==> state == old(state)
      ensures other != this ==> other.state == null && state == old(other.state)
      ensures other != this && state != null && state == old(state) ==>
        state.holders == old(state.holders) - {this} - {other} + {this} && state.active == old(state.active) - 1
      ensures other != this && state != null && state != old(state) ==>
        state.holders == old(other.state.holders) - {other} + {this} && state.active == old(other.state.active)
      ensures other != this && old(state) != null && old(state) != state ==>
        old(state).Valid() && old(state).holders == old(state.holders) - {this}
    {
      if this == other {
        return;
      }
      ghost var mine, theirs := state, other.state;
      assert theirs != null && theirs != mine ==> this !in theirs.holders;
      Release();
      assert theirs != null ==> theirs.Valid() && other in theirs.holders && this !in theirs.holders;
      TakeOver(other);
    }
  }

  /** `ProxyPermit::try_acquire`: a permit if and only if capacity is left. */
  method TryAcquire(state: ProxyAdmissionState) returns (permit: ProxyPermit?)
    requires state.Valid()
    modifies state
    ensures state.Valid()
    ensures permit == null <==> old(state.active) >= state.maxProxies
    ensures permit == null ==> state.active == old(state.active) && state.holders == old(state.holders)
    ensures permit != null ==> fresh(permit) && permit.Valid() && permit.state == state
    ensures permit != null ==> state.holders == old(state.holders) + {permit} && state.active == old(state.active) + 1
  {
    if state.active >= state.maxProxies {
      return null;
    }
    permit := new ProxyPermit();
    state.active := state.active + 1;
    permit.state := state;
    state.holders := state.holders + {permit};
  }
}
