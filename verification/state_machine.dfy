/** `StateMachine`: the current mode of the device and whether it is running. */
module StateMachine {

  /** `StateMachineEnum`. */
  datatype State = StartUp | Normal | Record | HorizontalAdjustment | VerticalAdjustment

  /** The enum member's value. */
  function Value(s: State): (v: int)
    ensures 0 <= v <= 4
  {
    match s
    case StartUp => 0
    case Normal => 1
    case Record => 2
    case HorizontalAdjustment => 3
    case VerticalAdjustment => 4
  }

  /** The five members have five distinct values. */
  lemma ValuesAreDistinct(s: State, t: State)
    ensures Value(s) == Value(t) <==> s == t
  {
  }

  datatype Machine = Machine(state: State, running: bool)

  /** `__init__`: start-up state, running. */
  function Init(): (m: Machine)
    ensures m.state == StartUp && m.running
  {
    Machine(StartUp, true)
  }

  /** `change_state`: the state becomes exactly the new one; running is untouched. */
  function ChangeState(m: Machine, s: State): (m': Machine)
    ensures m'.state == s && m'.running == m.running
  {
    m.(state := s)
  }

  function GetState(m: Machine): State {
    m.state
  }

  /** `stop`: no longer running, state untouched. */
  function Stop(m: Machine): (m': Machine)
    ensures !m'.running && m'.state == m.state
  {
    m.(running := false)
  }

  /** A sequence of calls on the machine. */
  datatype Call = Change(s: State) | Halt

  function Apply(m: Machine, calls: seq<Call>): Machine
    decreases |calls|
  {
    if |calls| == 0 then m
    else
      var next := match calls[0] case Change(s) => ChangeState(m, s) case Halt => Stop(m);
      Apply(next, calls[1..])
  }

  /** `get_state` returns the state of the last `change_state`, or the state
      before the calls when there was none; the machine runs only if it ran
      before and nobody called `stop`. */
  lemma {:induction false} GetStateIsLastChange(m: Machine, calls: seq<Call>)
    ensures (forall k :: 0 <= k < |calls| ==> !calls[k].Change?) ==> GetState(Apply(m, calls)) == m.state
    ensures forall k :: 0 <= k < |calls| && calls[k].Change? &&
                        (forall j :: k < j < |calls| ==> !calls[j].Change?) ==>
              GetState(Apply(m, calls)) == calls[k].s
    ensures Apply(m, calls).running <==> m.running && Halt !in calls
    decreases |calls|
  {
    if |calls| > 0 {
      var next := match calls[0] case Change(s) => ChangeState(m, s) case Halt => Stop(m);
      GetStateIsLastChange(next, calls[1..]);
      assert forall k :: 1 <= k < |calls| ==> calls[k] == calls[1..][k - 1];
      assert Halt in calls <==> calls[0] == Halt || Halt in calls[1..];
    }
  }
}
