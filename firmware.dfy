/** The state handling of src/bin/main.rs: the movement/stillness counter
    `Movement`, the device `State` with its global `STATE`, and the hall-sensor
    interrupt handler's update of that state. The globals are
    `critical_section::Mutex<RefCell<...>>` cells in the firmware; here they are
    the fields of one object, accessed by one thread of control. */
module Firmware {
  import opened Prelude

  /** The majority test of `Movement::is_moving`. */
  predicate Moving(moving: nat, still: nat)
  {
    moving > 0 && moving > still
  }

  /** `Movement` of src/bin/main.rs: how many samples saw movement and how many
      saw the device still. */
  class Movement {
    var moving: U32
    var still: U32

    /** `Movement::new`: nothing counted, so not moving. */
    constructor ()
      ensures moving == 0 && still == 0
      ensures !IsMoving()
    {
      moving := 0;
      still := 0;
    }

    /** `add_move`: one more moving sample; the `u32` must not overflow. */
    method AddMove()
      requires moving < U32Max
      modifies this
      ensures moving == old(moving) + 1 && still == old(still)
    {
      moving := moving + 1;
    }

    /** `add_still`: one more still sample; the `u32` must not overflow. */
    method AddStill()
      requires still < U32Max
      modifies this
      ensures still == old(still) + 1 && moving == old(moving)
    {
      still := still + 1;
    }

    /** `is_moving`: more moving samples than still ones. The test `moving > 0`
        adds nothing, since `still` is never negative. */
    function IsMoving(): (r: bool)
      reads this
      ensures r <==> moving > still
    {
      Moving(moving, still)
    }
  }

  /** The counts a `Movement` holds after one `add_move` per true sample and one
      `add_still` per false sample of `samples`, starting from `Movement::new`. */
  function Tally(samples: seq<bool>): (r: (nat, nat))
    ensures r.0 == multiset(samples)[true] && r.1 == multiset(samples)[false]
    ensures r.0 + r.1 == |samples|
  {
    if samples == [] then (0, 0)
    else
      var init := samples[..|samples| - 1];
      assert samples == init + [samples[|samples| - 1]];
      var (m, s) := Tally(init);
      if samples[|samples| - 1] then (m + 1, s) else (m, s + 1)
  }

  /** `is_moving` is a strict majority vote: it holds after a run of samples
      exactly when more than half of them saw movement. */
  lemma {:induction false} MajorityVote(samples: seq<bool>)
    ensures Moving(Tally(samples).0, Tally(samples).1) <==> 2 * Tally(samples).0 > |samples|
  {
  }

  /** Builds a counter with `Movement::new` and feeds it `samples`: `add_move`
      for each true sample, `add_still` for each false one. */
  method CountSamples(samples: seq<bool>) returns (c: Movement)
    requires |samples| < U32Max
    ensures (c.moving, c.still) == Tally(samples)
    ensures c.IsMoving() <==> 2 * Tally(samples).0 > |samples|
  {
    c := new Movement();
    var i := 0;
    while i < |samples|
      invariant 0 <= i <= |samples|
      invariant (c.moving, c.still) == Tally(samples[..i])
    {
      assert samples[..i + 1][..i] == samples[..i];
      if samples[i] {
        c.AddMove();
      } else {
        c.AddStill();
      }
      i := i + 1;
    }
    assert samples[..i] == samples;
    MajorityVote(samples);
  }

  /** `State` of src/bin/main.rs. */
  datatype State = Sleeping | Movement | Movement10sIndication | HallSensorStateChangeIndication

  /** The hardware input a handler serves; only its pending-interrupt flag is modelled. */
  datatype Input = Input(interruptSet: bool)

  /** `gpio_hall_sensor_handler`'s effect on `HALL_INT` and `STATE`: without a
      registered hall input it returns at once; otherwise it clears the input's
      interrupt and moves to `HallSensorStateChangeIndication`. */
  function HallSensorUpdate(hallInt: Option<Input>, state: State): (r: (Option<Input>, State))
    ensures hallInt.None? ==> r == (hallInt, state)
    ensures hallInt.Some? ==> r.0 == Some(Input(false)) && r.1 == HallSensorStateChangeIndication
  {
    match hallInt
    case None => (hallInt, state)
    case Some(input) => (Some(input.(interruptSet := false)), HallSensorStateChangeIndication)
  }

  /** A second hall interrupt handled right after a first changes nothing more. */
  lemma HallSensorUpdateIdempotent(hallInt: Option<Input>, state: State)
    ensures var (h, s) := HallSensorUpdate(hallInt, state); HallSensorUpdate(h, s) == (h, s)
  {
  }

  /** The globals `HALL_INT` and `STATE` of src/bin/main.rs. */
  class Statics {
    var hallInt: Option<Input>
    var state: State

    /** Their static initialisers: no hall input yet, and the device `Sleeping`. */
    constructor ()
      ensures hallInt == None && state == Sleeping
    {
      hallInt := None;
      state := Sleeping;
    }

    /** `gpio_hall_sensor_handler`. */
    method GpioHallSensorHandler()
      modifies this
      ensures (hallInt, state) == HallSensorUpdate(old(hallInt), old(state))
      ensures old(hallInt).None? ==> hallInt == old(hallInt) && state == old(state)
    {
      if hallInt.None? {
        return;
      }
      var input := hallInt.value;
      hallInt := Some(input.(interruptSet := false));
      state := HallSensorStateChangeIndication;
    }
  }
}
