/**
 * The method picker of the challenge forms: two lists of methods, the ones still available and
 * the ones selected, and the two handlers that move a method from one to the other. Clicking an
 * available method and removing a selected one keeps the two lists a partition of all methods.
 */
module MethodPicker {
  import opened Seqs
  import opened HackingMethods
  import opened MethodKeys

  datatype Picker = Picker(available: seq<Method>, selected: seq<Method>)

  /** The state on first render: every method available, in key order, and none selected. */
  function Initial(): Picker {
    Picker(AllMethods(), [])
  }

  /** `handleMethodClick(m)`: every copy of `m` leaves "available" and `m` is appended to "selected". */
  function Click(p: Picker, m: Method): (r: Picker)
    ensures r.selected == p.selected + [m]
    ensures forall x :: x in r.available <==> x in p.available && x != m
    ensures |r.available| <= |p.available|
  {
    Picker(Filter(p.available, Except(m)), p.selected + [m])
  }

  /** `handleRemoveMethod(m)`: every copy of `m` leaves "selected" and `m` is appended to "available". */
  function Remove(p: Picker, m: Method): (r: Picker)
    ensures r.available == p.available + [m]
    ensures forall x :: x in r.selected <==> x in p.selected && x != m
    ensures |r.selected| <= |p.selected|
  {
    Picker(p.available + [m], Filter(p.selected, Except(m)))
  }

  /** No method is listed twice, and every method is listed in one of the two lists. */
  predicate Partitioned(p: Picker) {
    Distinct(p.available + p.selected) && forall m: Method :: m in p.available + p.selected
  }

  /** A user action: a click on an item of one of the two lists. */
  datatype Move = Pick(m: Method) | Unpick(m: Method)

  /** The page only shows available items to click and selected items to remove. */
  predicate Legal(p: Picker, mv: Move) {
    match mv
    case Pick(m) => m in p.available
    case Unpick(m) => m in p.selected
  }

  function Apply(p: Picker, mv: Move): Picker {
    match mv
    case Pick(m) => Click(p, m)
    case Unpick(m) => Remove(p, m)
  }

  /** Every move of the run is legal in the state it is made in. */
  predicate LegalRun(p: Picker, moves: seq<Move>)
    decreases |moves|
  {
    moves == [] || (Legal(p, moves[0]) && LegalRun(Apply(p, moves[0]), moves[1..]))
  }

  /** The state after the moves. */
  function Replay(p: Picker, moves: seq<Move>): Picker
    decreases |moves|
  {
    if moves == [] then p else Replay(Apply(p, moves[0]), moves[1..])
  }

  // ---------------------------------------------------------------------------------------------
  // Properties

  /** The first render is a partition. */
  lemma InitialPartitioned()
    ensures Partitioned(Initial())
  {
    AllMethodsDistinct();
    assert Initial().available + Initial().selected == AllMethods();
  }

  /** Clicking an available method keeps the partition. */
  lemma ClickPreserves(p: Picker, m: Method)
    requires Partitioned(p) && m in p.available
    ensures Partitioned(Click(p, m))
  {
    var q := Click(p, m);
    DistinctAppend(p.available, p.selected);
    FilterDistinct(p.available, Except(m));
    assert m !in p.selected;
    DistinctAppend(p.selected, [m]);
    DistinctAppend(q.available, q.selected);
    forall x: Method ensures x in q.available + q.selected {
      assert x in p.available + p.selected;
    }
  }

  /** Removing a selected method keeps the partition. */
  lemma RemovePreserves(p: Picker, m: Method)
    requires Partitioned(p) && m in p.selected
    ensures Partitioned(Remove(p, m))
  {
    var q := Remove(p, m);
    DistinctAppend(p.available, p.selected);
    FilterDistinct(p.selected, Except(m));
    assert m !in p.available;
    DistinctAppend(p.available, [m]);
    DistinctAppend(q.available, q.selected);
    forall x: Method ensures x in q.available + q.selected {
      assert x in p.available + p.selected;
    }
  }

  /** A partition lists exactly the 40 methods. */
  lemma PartitionedSize(p: Picker)
    requires Partitioned(p)
    ensures |p.available| + |p.selected| == 40
  {
    AllMethodsDistinct();
    SameElementsSameLength(p.available + p.selected, AllMethods());
  }

  /** Every run of legal moves keeps the partition, and with it the total of 40. */
  lemma {:induction false} RunPreserves(p: Picker, moves: seq<Move>)
    requires Partitioned(p) && LegalRun(p, moves)
    ensures Partitioned(Replay(p, moves))
    ensures |Replay(p, moves).available| + |Replay(p, moves).selected| == 40
    decreases |moves|
  {
    if moves == [] {
      PartitionedSize(p);
    } else {
      match moves[0] {
        case Pick(m) => ClickPreserves(p, m);
        case Unpick(m) => RemovePreserves(p, m);
      }
      RunPreserves(Apply(p, moves[0]), moves[1..]);
    }
  }

  /** Every state the page can reach from its first render is a partition of the 40 methods. */
  lemma Reachable(moves: seq<Move>)
    requires LegalRun(Initial(), moves)
    ensures Partitioned(Replay(Initial(), moves))
    ensures |Replay(Initial(), moves).available| + |Replay(Initial(), moves).selected| == 40
  {
    InitialPartitioned();
    RunPreserves(Initial(), moves);
  }

  /**
   * Clicking and then removing a method restores "selected" exactly, and "available" up to order:
   * the method moves to the end.
   */
  lemma ClickThenRemove(p: Picker, m: Method)
    requires Partitioned(p) && m in p.available
    ensures Remove(Click(p, m), m).selected == p.selected
    ensures Remove(Click(p, m), m).available == Filter(p.available, Except(m)) + [m]
    ensures forall x :: x in Remove(Click(p, m), m).available <==> x in p.available
  {
    DistinctAppend(p.available, p.selected);
    assert m !in p.selected;
    FilterAppend(p.selected, [m], Except(m));
    FilterNone(p.selected, m);
    assert Filter([m], Except(m)) == [];
    assert p.selected + [] == p.selected;
  }

  /** Clicking an available method shortens "available" by exactly one. */
  lemma ClickShortens(p: Picker, m: Method)
    requires Partitioned(p) && m in p.available
    ensures |Click(p, m).available| == |p.available| - 1
  {
    DistinctAppend(p.available, p.selected);
    FilterOutOne(p.available, m);
  }

  /** The guard matters: clicking the same method twice lists it twice. */
  lemma DoubleClickBreaks(p: Picker, m: Method)
    ensures !Partitioned(Click(Click(p, m), m))
  {
    var q := Click(Click(p, m), m);
    var all := q.available + q.selected;
    assert q.selected == p.selected + [m] + [m];
    assert all[|all| - 2] == m && all[|all| - 1] == m;
  }
}
