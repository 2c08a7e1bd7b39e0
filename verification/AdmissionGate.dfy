/** The admission gate: a permit counter with drain generations and a permanent close. Every
    method body below is one critical section of the gate's mutex. */
module AdmissionGate {
  import opened Wrappers

  datatype AdmissionState = Serving | Draining | Blocked
  datatype AdmissionError = NotServing | UpstreamNotReady | AtCapacity
  datatype DrainError = Timeout | GenerationChanged

  /** What the mutex guards. */
  datatype Inner = Inner(
    state: AdmissionState, closed: bool, inFlight: nat, maxInFlight: nat, drainGeneration: Option<nat>)
  {
    /** A closed gate never serves, a serving gate has no drain generation, and the counter
        respects its maximum. */
    predicate Sound() {
      && 0 < maxInFlight
      && inFlight <= maxInFlight
      && (closed ==> state != Serving)
      && (state == Serving ==> drainGeneration == None)
    }

    function StartServing(): Inner {
      if closed then this else this.(state := Serving, drainGeneration := None)
    }

    function Block(): Inner {
      this.(state := Blocked)
    }

    function Close(): Inner {
      this.(closed := true, state := Blocked)
    }

    function ResetBlockedGeneration(): Inner {
      this.(drainGeneration := None)
    }

    /** Why a permit is refused, if it is. */
    function Refusal(upstreamReady: bool): (r: Option<AdmissionError>)
      ensures r == None <==> !closed && upstreamReady && inFlight < maxInFlight
      ensures r == Some(NotServing) <==> closed
      ensures r == Some(UpstreamNotReady) <==> !closed && !upstreamReady
      ensures r == Some(AtCapacity) <==> !closed && upstreamReady && inFlight >= maxInFlight
    {
      if closed then Some(NotServing)
      else if !upstreamReady then Some(UpstreamNotReady)
      else if inFlight >= maxInFlight then Some(AtCapacity)
      else None
    }

    function PublicRefusal(upstreamReady: bool): (r: Option<AdmissionError>)
      ensures r == None <==> state == Serving && !closed && upstreamReady && inFlight < maxInFlight
      ensures r == Some(NotServing) <==> state != Serving || closed
      ensures r == Some(UpstreamNotReady) <==> state == Serving && !closed && !upstreamReady
      ensures r == Some(AtCapacity) <==> state == Serving && !closed && upstreamReady && inFlight >= maxInFlight
    {
      if state != Serving then Some(NotServing) else Refusal(upstreamReady)
    }

    function Admit(): Inner {
      this.(inFlight := inFlight + 1)
    }

    function Release(): Inner
      requires inFlight > 0
    {
      this.(inFlight := inFlight - 1)
    }

    predicate DrainAllowed(generation: nat) {
      drainGeneration.Some? ==> drainGeneration.value == generation
    }

    function BeginDrain(generation: nat): Inner {
      if DrainAllowed(generation) then this.(state := Draining, drainGeneration := Some(generation)) else this
    }
  }

  class AdmissionGate {
    var state: AdmissionState
    var closed: bool
    var inFlight: nat
    const maxInFlight: nat
    var drainGeneration: Option<nat>

    function Value(): Inner
      reads this
    {
      Inner(state, closed, inFlight, maxInFlight, drainGeneration)
    }

    ghost predicate Valid()
      reads this
    {
      Value().Sound()
    }

    constructor (maxInFlight: nat)
      requires maxInFlight > 0
      ensures Valid() && this.maxInFlight == maxInFlight
      ensures state == Blocked && !closed && inFlight == 0 && drainGeneration == None
    {
      state, closed, inFlight, drainGeneration := Blocked, false, 0, None;
      this.maxInFlight := maxInFlight;
    }

    method StartServing()
      requires Valid()
      modifies `state, `drainGeneration
      ensures Valid()
      ensures !closed ==> state == Serving && drainGeneration == None
      ensures closed ==> state == old(state) && drainGeneration == old(drainGeneration)
    {
      if closed {
        return;
      }
      state := Serving;
      drainGeneration := None;
    }

    method Block()
      requires Valid()
      modifies `state
      ensures Valid() && state == Blocked
    {
      state := Blocked;
    }

    method Close()
      requires Valid()
      modifies `state, `closed
      ensures Valid() && closed && state == Blocked
    {
      closed := true;
      state := Blocked;
    }

    method ResetBlockedGeneration()
      requires Valid()
      modifies `drainGeneration
      ensures Valid() && drainGeneration == None
    {
      drainGeneration := None;
    }

    method TryAcquire(upstreamReady: bool) returns (error: Option<AdmissionError>)
      requires Valid()
      modifies `inFlight
      ensures Valid()
      ensures error == None <==> state == Serving && !closed && upstreamReady && old(inFlight) < maxInFlight
      ensures error == Some(NotServing) <==> state != Serving || closed
      ensures error == Some(UpstreamNotReady) <==> state == Serving && !closed && !upstreamReady
      ensures error == Some(AtCapacity) <==> state == Serving && !closed && upstreamReady && old(inFlight) >= maxInFlight
      ensures inFlight == old(inFlight) + if error == None then 1 else 0
    {
      if state != Serving {
        return Some(NotServing);
      }
      error := AcquirePermit(upstreamReady);
    }

    method TryAcquireRecovery(upstreamReady: bool) returns (error: Option<AdmissionError>)
      requires Valid()
      modifies `inFlight
      ensures Valid()
      ensures error == None <==> !closed && upstreamReady && old(inFlight) < maxInFlight
      ensures error == Some(NotServing) <==> closed
      ensures error == Some(UpstreamNotReady) <==> !closed && !upstreamReady
      ensures error == Some(AtCapacity) <==> !closed && upstreamReady && old(inFlight) >= maxInFlight
      ensures inFlight == old(inFlight) + if error == None then 1 else 0
    {
      error := AcquirePermit(upstreamReady);
    }

    method AcquirePermit(upstreamReady: bool) returns (error: Option<AdmissionError>)
      requires Valid()
      modifies `inFlight
      ensures Valid()
      ensures error == None <==> !closed && upstreamReady && old(inFlight) < maxInFlight
      ensures error == Some(NotServing) <==> closed
      ensures error == Some(UpstreamNotReady) <==> !closed && !upstreamReady
      ensures error == Some(AtCapacity) <==> !closed && upstreamReady && old(inFlight) >= maxInFlight
      ensures inFlight == old(inFlight) + if error == None then 1 else 0
    {
      if closed {
        return Some(NotServing);
      }
      if !upstreamReady {
        return Some(UpstreamNotReady);
      }
      if inFlight >= maxInFlight {
        return Some(AtCapacity);
      }
      inFlight := inFlight + 1;
      error := None;
    }

    method BeginDrain(generation: nat) returns (error: Option<DrainError>)
      requires Valid()
      modifies `state, `drainGeneration
      ensures Valid()
      ensures error == None || error == Some(GenerationChanged)
      ensures error == None <==> old(drainGeneration) == None || old(drainGeneration) == Some(generation)
      ensures error == None ==> state == Draining && drainGeneration == Some(generation)
      ensures error != None ==> state == old(state) && drainGeneration == old(drainGeneration)
    {
      if drainGeneration.Some? && drainGeneration.value != generation {
        return Some(GenerationChanged);
      }
      state := Draining;
      drainGeneration := Some(generation);
      error := None;
    }

    /** The last critical section of a drain, once no request was in flight. */
    method FinishDrain(generation: nat) returns (error: Option<DrainError>)
      requires Valid()
      modifies `state
      ensures Valid()
      ensures error == if drainGeneration == Some(generation) then None else Some(GenerationChanged)
      ensures state == if error == None then Blocked else old(state)
    {
      if drainGeneration != Some(generation) {
        return Some(GenerationChanged);
      }
      state := Blocked;
      error := None;
    }

    /** The critical section of dropping a permit; the caller owes a notification if it is true. */
    method DropPermit() returns (becameZero: bool)
      requires Valid() && inFlight > 0
      modifies `inFlight
      ensures Valid() && inFlight == old(inFlight) - 1
      ensures becameZero <==> old(inFlight) == 1
    {
      inFlight := inFlight - 1;
      becameZero := inFlight == 0;
    }
  }
}
