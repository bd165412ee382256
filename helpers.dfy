/** `instructions(actions, goto)`, the older twin of `compose`: both
    arguments may be Python's `None`, and each is tested for truthiness
    (`None`, an empty list and `0` are false).

    Known defect: helpers.py never imports `parser` or `ofproto`, so as
    written every call that takes one of the two branches raises
    `NameError`; that behaviour is `InstructionsAsWritten`. The model uses
    the evident intent, `Instructions`. */
module Helpers {
  import opened Results
  import opened Flows

  /** Python truthiness of the `actions` argument. */
  predicate ActionsGiven<A>(actions: Option<seq<A>>)
  {
    actions.Some? && actions.value != []
  }

  /** Python truthiness of the `goto` argument. */
  predicate GotoGiven(goto: Option<int>)
  {
    goto.Some? && goto.value != 0
  }

  /** `instructions(actions, goto)` with its module's imports in place. */
  function Instructions<A>(actions: Option<seq<A>> := None, goto: Option<int> := None): (inst: seq<Instruction<A>>)
    ensures !ActionsGiven(actions) && !GotoGiven(goto) ==> inst == []
    ensures ActionsGiven(actions) ==> inst != [] && inst[0] == ApplyActions(actions.value)
    ensures GotoGiven(goto) ==> inst != [] && inst[|inst| - 1] == GotoTable(goto.value)
    ensures |inst| <= 2
    ensures forall k :: 0 <= k < |inst| ==> (inst[k].ApplyActions? ==> k == 0) && (inst[k].GotoTable? ==> k == |inst| - 1)
    ensures inst == Compose(actions.GetOr([]), goto.GetOr(DefaultTable))
  {
    var apply := if ActionsGiven(actions) then [ApplyActions(actions.value)] else [];
    var jump := if GotoGiven(goto) then [GotoTable(goto.value)] else [];
    apply + jump
  }

  /** `instructions(actions, goto)` as written, without the imports: the
      first branch taken raises `NameError`; with neither branch taken the
      empty list is returned. */
  function InstructionsAsWritten<A>(actions: Option<seq<A>> := None, goto: Option<int> := None): (r: Result<seq<Instruction<A>>>)
    ensures r.Failure? <==> ActionsGiven(actions) || GotoGiven(goto)
    ensures r.Failure? ==> r.error == NameError
    ensures r.Success? ==> r.value == [] && r.value == Instructions(actions, goto)
  {
    if ActionsGiven(actions) || GotoGiven(goto) then Failure(NameError) else Success([])
  }

  /** A goto to table 1 shows the defect: the intended result is one goto
      instruction, the code as written raises `NameError`. */
  lemma InstructionsAsWrittenFails()
    ensures InstructionsAsWritten<int>(None, Some(1)) == Failure(NameError)
    ensures Instructions<int>(None, Some(1)) == [GotoTable(1)]
  {
  }
}
