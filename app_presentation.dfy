/**
 * The application's modal-presentation reducer: the same two flags as the
 * playground's, but only the two presenting messages, so a flag once set is
 * never cleared. A driver holds the state and applies the reducer on `send`.
 */
module AppPresentation {

  import opened Wrappers

  datatype Message = Present1 | Present2

  /**
   * The reducer's side-effect type, an enum without cases in the app; the one
   * constructor here only makes the type inhabited, and `Send` never yields it.
   */
  datatype Command = Command(message: Message)

  datatype Reply = Reply(state: State, command: Option<Command>)

  datatype State = State(modal1Presented: bool, modal2Presented: bool) {

    predicate Consistent() {
      modal2Presented ==> modal1Presented
    }

    /** `present2` needs the first modal presented; `present1` is always accepted. */
    predicate Accepts(m: Message) {
      m == Present2 ==> modal1Presented
    }

    /** Flag-wise "at least as far along": every flag set in `this` is set in `t`. */
    predicate Below(t: State) {
      (modal1Presented ==> t.modal1Presented) && (modal2Presented ==> t.modal2Presented)
    }

    function Send(m: Message): (r: Reply)
      requires Accepts(m)
      ensures r.command == None
      ensures m == Present1 ==> r.state.modal1Presented && r.state.modal2Presented == modal2Presented
      ensures m == Present2 ==> r.state.modal2Presented && r.state.modal1Presented == modal1Presented
      ensures this.Below(r.state)
      ensures Consistent() ==> r.state.Consistent()
    {
      match m
      case Present1 => Reply(this.(modal1Presented := true), None)
      case Present2 => Reply(this.(modal2Presented := true), None)
    }
  }

  function Equal(lhs: State, rhs: State): (r: bool)
    ensures r <==> lhs == rhs
  {
    lhs.modal1Presented == rhs.modal1Presented && lhs.modal2Presented == rhs.modal2Presented
  }

  const Initial := State(false, false)

  /** The final state after sending `ms` in order, or None when one of them traps. */
  function Run(s: State, ms: seq<Message>): (r: Option<State>)
    decreases |ms|
  {
    if ms == [] then Some(s)
    else if !s.Accepts(ms[0]) then None
    else Run(s.Send(ms[0]).state, ms[1..])
  }

  /** Along any run that does not trap, flags only go from false to true. */
  lemma {:induction false} RunNeverClears(s: State, ms: seq<Message>)
    ensures Run(s, ms).Some? ==> s.Below(Run(s, ms).value)
    decreases |ms|
  {
    if ms != [] && s.Accepts(ms[0]) {
      var t := s.Send(ms[0]).state;
      RunNeverClears(t, ms[1..]);
    }
  }

  lemma {:induction false} RunPreservesConsistency(s: State, ms: seq<Message>)
    requires s.Consistent()
    ensures Run(s, ms).Some? ==> Run(s, ms).value.Consistent()
    decreases |ms|
  {
    if ms != [] && s.Accepts(ms[0]) {
      RunPreservesConsistency(s.Send(ms[0]).state, ms[1..]);
    }
  }

  /**
   * A run from any state without the first modal (the initial state among
   * them) traps exactly when some `present2` is sent before any `present1`.
   */
  lemma {:induction false} RunTrapsIff(s: State, ms: seq<Message>)
    requires !s.modal1Presented
    ensures Run(s, ms) == None <==> exists i :: 0 <= i < |ms| && ms[i] == Present2 && Present1 !in ms[..i]
    decreases |ms|
  {
    if ms != [] {
      assert ms[..0] == [];
      if ms[0] == Present1 {
        var t := s.Send(Present1).state;
        RunNeverClears(t, ms[1..]);
        assert Run(t, ms[1..]).Some? by { RunFromPresentedNeverTraps(t, ms[1..]); }
        forall i | 0 < i < |ms| && ms[i] == Present2
          ensures Present1 in ms[..i]
        {
          assert ms[..i][0] == Present1;
        }
      } else {
        assert Run(s, ms) == None;
      }
    }
  }

  /** Once the first modal is presented, no message can trap any more. */
  lemma {:induction false} RunFromPresentedNeverTraps(s: State, ms: seq<Message>)
    requires s.modal1Presented
    ensures Run(s, ms).Some?
    decreases |ms|
  {
    if ms != [] {
      RunFromPresentedNeverTraps(s.Send(ms[0]).state, ms[1..]);
    }
  }

  /** The launch sequence: present1, then present2, shows both modals. */
  lemma LaunchOutcome()
    ensures Run(Initial, [Present1, Present2]) == Some(State(true, true))
  {
  }

  class Driver {
    var state: State

    constructor (initial: State)
      ensures state == initial
    {
      state := initial;
    }

    method Send(m: Message)
      requires state.Accepts(m)
      modifies this
      ensures state == old(state).Send(m).state
      ensures old(state).Below(state)
      ensures old(state).Consistent() ==> state.Consistent()
    {
      // the reducer never returns a command (its commands have no cases), so none is run
      var reply := state.Send(m);
      state := reply.state;
    }
  }
}
