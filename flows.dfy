/** Composition of the instruction list of an OpenFlow flow entry: an
    optional apply-actions instruction followed by an optional goto-table
    instruction. The Ryu instruction objects are abstracted as the datatype
    `Instruction`, over an arbitrary action type `A`. */
module Flows {

  /** `OFPInstructionActions(OFPIT_APPLY_ACTIONS, actions)` and
      `OFPInstructionGoto(table_id)`. */
  datatype Instruction<A> = ApplyActions(actions: seq<A>) | GotoTable(tableId: int)

  /** The default flow table, which a goto never targets. */
  const DefaultTable := 0

  /** `inst` is a correct instruction list for `actions` and `toTable`: it
      holds only the apply-actions instruction for `actions` and the goto
      to `toTable`; the first is present exactly when there are actions,
      the second exactly when `toTable` is not the default table; an
      apply-actions instruction can only come first and a goto only last. */
  ghost predicate Composed<A>(inst: seq<Instruction<A>>, actions: seq<A>, toTable: int)
  {
    && (forall k :: 0 <= k < |inst| ==> inst[k] == ApplyActions(actions) || inst[k] == GotoTable(toTable))
    && (ApplyActions(actions) in inst <==> actions != [])
    && (GotoTable(toTable) in inst <==> toTable != DefaultTable)
    && (forall k :: 0 <= k < |inst| ==> (inst[k].ApplyActions? ==> k == 0) && (inst[k].GotoTable? ==> k == |inst| - 1))
  }

  /** `compose(actions, to_table)`. */
  function Compose<A>(actions: seq<A> := [], toTable: int := DefaultTable): (inst: seq<Instruction<A>>)
    ensures Composed(inst, actions, toTable)
    ensures actions == [] && toTable == DefaultTable ==> inst == []
    ensures actions != [] ==> inst != [] && inst[0] == ApplyActions(actions)
    ensures toTable != DefaultTable ==> inst != [] && inst[|inst| - 1] == GotoTable(toTable)
    ensures GotoTable(DefaultTable) !in inst
    ensures |inst| == (if actions != [] then 1 else 0) + (if toTable != DefaultTable then 1 else 0)
    ensures |inst| <= 2
  {
    var apply := if actions != [] then [ApplyActions(actions)] else [];
    var goto := if toTable != DefaultTable then [GotoTable(toTable)] else [];
    apply + goto
  }

  /** The correct instruction list is unique: it is the one `Compose`
      builds. In particular it has at most two instructions, and an
      apply-actions instruction precedes a goto. */
  lemma ComposedUnique<A>(inst: seq<Instruction<A>>, actions: seq<A>, toTable: int)
    requires Composed(inst, actions, toTable)
    ensures inst == Compose(actions, toTable)
  {
    if 1 < |inst| {
      assert inst[1].ApplyActions? || inst[1].GotoTable?;
      assert |inst| == 2;
      assert inst[0].ApplyActions? && inst[1].GotoTable?;
      assert inst == [ApplyActions(actions), GotoTable(toTable)];
    } else if |inst| == 1 {
      assert inst == [inst[0]];
    }
  }
}
