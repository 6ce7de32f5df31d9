/**
 * The modal-presentation reducer of the view-controller-presentations
 * playground page: a state of two flags (is the first modal presented, is the
 * second one presented over it), four messages, and a driver that holds the
 * state and applies the reducer to it on every message.
 */
module PlaygroundPresentation {

  import opened Wrappers

  datatype Message = Present1 | Present2 | Dismiss1 | Dismiss2

  /**
   * The reducer's side-effect type. In the playground page, as in the app, it
   * is an enum without cases, so a `Command?` can only ever be nil; Dafny
   * needs one constructor, and the contracts below prove that the reducer
   * never produces it.
   */
  datatype Command = Command(message: Message)

  /** What one reducer step yields: the new state and the optional command. */
  datatype Reply = Reply(state: State, command: Option<Command>)

  datatype State = State(modal1Presented: bool, modal2Presented: bool) {

    /** The second modal is only ever presented on top of the first. */
    predicate Consistent() {
      modal2Presented ==> modal1Presented
    }

    /** The reducer's precondition: `present2` needs the first modal presented. */
    predicate Accepts(m: Message) {
      m == Present2 ==> modal1Presented
    }

    /** The reducer: assigns the flags that message `m` controls. */
    function Send(m: Message): (r: Reply)
      requires Accepts(m)
      ensures r.command == None
      ensures m == Present1 ==> r.state.modal1Presented && r.state.modal2Presented == modal2Presented
      ensures m == Present2 ==> r.state.modal2Presented && r.state.modal1Presented == modal1Presented
      ensures m == Dismiss1 ==> !r.state.modal1Presented && !r.state.modal2Presented
      ensures m == Dismiss2 ==> !r.state.modal2Presented && r.state.modal1Presented == modal1Presented
      ensures Consistent() ==> r.state.Consistent()
    {
      match m
      case Present1 => Reply(this.(modal1Presented := true), None)
      case Present2 => Reply(this.(modal2Presented := true), None)
      case Dismiss1 => Reply(this.(modal1Presented := false, modal2Presented := false), None)
      case Dismiss2 => Reply(this.(modal2Presented := false), None)
    }
  }

  /** Field-wise equality, as the state's `==` operator. */
  function Equal(lhs: State, rhs: State): (r: bool)
    ensures r <==> lhs == rhs
  {
    lhs.modal1Presented == rhs.modal1Presented && lhs.modal2Presented == rhs.modal2Presented
  }

  /** The state the playground starts the driver with. */
  const Initial := State(false, false)

  /**
   * Sending `ms` one after another to a driver holding `s`: the final state,
   * or None when some message fails the reducer's precondition (a trap).
   */
  function Run(s: State, ms: seq<Message>): (r: Option<State>)
    decreases |ms|
  {
    if ms == [] then Some(s)
    else if !s.Accepts(ms[0]) then None
    else Run(s.Send(ms[0]).state, ms[1..])
  }

  /** Sending `present2` traps exactly when the first modal is not presented. */
  lemma Present2TrapsIff(s: State)
    ensures Run(s, [Present2]) == None <==> !s.modal1Presented
  {
  }

  /** Every message is idempotent: sending it a second time changes nothing. */
  lemma SendIdempotent(s: State, m: Message)
    requires s.Accepts(m)
    ensures s.Send(m).state.Accepts(m)
    ensures s.Send(m).state.Send(m) == s.Send(m)
  {
  }

  /** No run of accepted messages leaves the second modal without the first. */
  lemma {:induction false} RunPreservesConsistency(s: State, ms: seq<Message>)
    requires s.Consistent()
    ensures Run(s, ms).Some? ==> Run(s, ms).value.Consistent()
    decreases |ms|
  {
    if ms != [] && s.Accepts(ms[0]) {
      RunPreservesConsistency(s.Send(ms[0]).state, ms[1..]);
    }
  }

  /** Every state a driver started at `Initial` can reach is consistent. */
  lemma ReachableConsistent(ms: seq<Message>)
    ensures Run(Initial, ms).Some? ==> Run(Initial, ms).value.Consistent()
  {
    RunPreservesConsistency(Initial, ms);
  }

  /** Running `ms1 + ms2` is running `ms1`, then `ms2` from where it stopped. */
  lemma {:induction false} RunAppend(s: State, ms1: seq<Message>, ms2: seq<Message>)
    ensures Run(s, ms1 + ms2) == match Run(s, ms1) { case None => None case Some(t) => Run(t, ms2) }
    decreases |ms1|
  {
    if ms1 == [] {
      assert ms1 + ms2 == ms2;
    } else {
      assert (ms1 + ms2)[0] == ms1[0];
      assert (ms1 + ms2)[1..] == ms1[1..] + ms2;
      if s.Accepts(ms1[0]) {
        RunAppend(s.Send(ms1[0]).state, ms1[1..], ms2);
      }
    }
  }

  /**
   * The playground's script: present1, present2, then (after a delay that
   * the model does not see) dismiss2 leaves only the first modal presented.
   */
  lemma ScriptOutcome()
    ensures Run(Initial, [Present1, Present2, Dismiss2]) == Some(State(true, false))
  {
  }

  /** The driver: holds the application state and feeds each message to the reducer. */
  class Driver {
    var state: State

    constructor (initial: State)
      ensures state == initial
    {
      state := initial;
    }

    /** Applies the reducer to the held state; the command it returns is always nil. */
    method Send(m: Message)
      requires state.Accepts(m)
      modifies this
      ensures state == old(state).Send(m).state
      ensures old(state).Consistent() ==> state.Consistent()
    {
      // the reducer never returns a command (its commands have no cases), so none is run
      var reply := state.Send(m);
      state := reply.state;
    }
  }
}
