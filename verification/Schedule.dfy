/** What every activation schedule answers: the state that holds now, and the next transition. */
module Schedule {
  datatype Option<+T> = None | Some(value: T) {
    function GetOr(default: T): T {
      if Some? then value else default
    }
  }

  /** The states of a distribution session; NoVal is an enumeration that was never assigned. */
  datatype DistState = NoVal | Inactive | Established | Active | Deactivating

  /** The pair returned by `nextTransition`: the instant, if there is one, and the state expected from then on. */
  datatype Transition = Transition(at: Option<int>, state: DistState)
}
