/** pkg/alert/alert.go: the alert a scaler keeps for the whole of its life,
    and a healer's watcher for the length of one outage. */
module Alerts {
  import opened Clock

  /** The persisted part of an alert (model.Alert). */
  datatype State = State(active: bool, startedAt: Instant, firedAt: Instant)

  const QUIET := State(false, ZERO, ZERO)

  /** An alert as a value: the persisted state, and the flag that is never persisted. */
  datatype Alarm = Alarm(state: State, cooling: bool) {

    predicate ShouldFire(now: Instant, duration: Setting) {
      state.active && Sub(now, state.startedAt) >= duration
    }

    function Cooled(now: Instant, cooldown: Setting): Alarm {
      this.(cooling := Sub(now, state.firedAt) <= cooldown)
    }

    function Started(now: Instant): Alarm {
      this.(state := state.(startedAt := now, active := true))
    }

    function Fired(at: Instant): Alarm {
      if state.firedAt == ZERO || !cooling then this.(state := state.(firedAt := at)) else this
    }

    function WasReset(): Alarm {
      this.(state := QUIET)
    }
  }

  class Alert {
    var state: State
    var cooling: bool

    constructor (state: State)
      ensures Value() == Alarm(state, false)
    {
      this.state, this.cooling := state, false;
    }

    ghost function Value(): Alarm
      reads this
    {
      Alarm(state, cooling)
    }

    /** However long ago the start: no setting is as long as the duration at which subtraction saturates. */
    predicate ShouldFire(now: Instant, duration: Setting): (r: bool)
      reads this
      ensures r <==> state.active && state.startedAt + duration <= now
    {
      state.active && Sub(now, state.startedAt) >= duration
    }

    method IsCoolingDown(now: Instant, cooldown: Setting) returns (r: bool)
      modifies this`cooling
      ensures Value() == old(Value()).Cooled(now, cooldown)
      ensures r == Value().cooling && (r <==> now <= state.firedAt + cooldown)
    {
      cooling := Sub(now, state.firedAt) <= cooldown;
      r := cooling;
    }

    method Start(now: Instant)
      modifies this`state
      ensures Value() == old(Value()).Started(now)
    {
      state := state.(startedAt := now);
      state := state.(active := true);
    }

    method Fire(at: Instant)
      modifies this`state
      ensures Value() == old(Value()).Fired(at)
    {
      if state.firedAt == ZERO || !cooling {
        state := state.(firedAt := at);
      }
    }

    method Reset()
      modifies this`state
      ensures Value() == old(Value()).WasReset()
    {
      state := state.(startedAt := ZERO);
      state := state.(active := false);
      state := state.(firedAt := ZERO);
    }

    predicate IsActive()
      reads this
    {
      state.active
    }
  }
}
