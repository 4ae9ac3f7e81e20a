/**
 * The row transformations of the ICL eval-output callback: keeping only the
 * rows whose `correct` cell is falsy, and drawing a sample of distinct rows.
 * Rows are sequences of cells; what matters of a cell is its Python truthiness.
 */
module EvalRows {
  import opened Wrappers

  /**
   * A cell of a response-cache row. Floats, single-element tensors and other
   * objects that have a truth value are `OtherCell`s carrying it.
   */
  datatype Cell =
    | NoneCell
    | BoolCell(b: bool)
    | IntCell(i: int)
    | StrCell(s: string)
    | OtherCell(repr: string, truthy: bool)

  /** One row of a response cache: its cells, one per column. */
  datatype Row = Row(cells: seq<Cell>)

  /** Python's `bool(cell)`. */
  predicate Truthy(c: Cell) {
    match c
    case NoneCell => false
    case BoolCell(b) => b
    case IntCell(i) => i != 0
    case StrCell(s) => s != ""
    case OtherCell(_, t) => t
  }

  predicate Distinct(s: seq<nat>) {
    forall i, j :: 0 <= i < j < |s| ==> s[i] != s[j]
  }

  predicate StrictlyIncreasing(s: seq<nat>) {
    forall i, j :: 0 <= i < j < |s| ==> s[i] < s[j]
  }

  /** The rows at the given positions, in the order of the positions. */
  function Select(rows: seq<Row>, positions: seq<nat>): (r: seq<Row>)
    requires forall i :: 0 <= i < |positions| ==> positions[i] < |rows|
    ensures |r| == |positions|
  {
    if positions == [] then [] else [rows[positions[0]]] + Select(rows, positions[1..])
  }

  /** The `i`-th selected row is the row at the `i`-th position. */
  lemma {:induction false} SelectAt(rows: seq<Row>, positions: seq<nat>)
    requires forall i :: 0 <= i < |positions| ==> positions[i] < |rows|
    ensures forall i :: 0 <= i < |positions| ==> Select(rows, positions)[i] == rows[positions[i]]
  {
    if positions != [] {
      SelectAt(rows, positions[1..]);
    }
  }

  predicate LongEnough(rows: seq<Row>, col: nat) {
    forall i :: 0 <= i < |rows| ==> col < |rows[i].cells|
  }

  // ---------------------------------------------------------------------------
  // Keeping the incorrect rows
  // ---------------------------------------------------------------------------

  /** `[r for r in rows[from..] if not r[col]]`, walking the rows by index. */
  function IncorrectFrom(rows: seq<Row>, col: nat, from: nat): seq<Row>
    requires LongEnough(rows, col) && from <= |rows|
    decreases |rows| - from
  {
    if from == |rows| then []
    else if Truthy(rows[from].cells[col]) then IncorrectFrom(rows, col, from + 1)
    else [rows[from]] + IncorrectFrom(rows, col, from + 1)
  }

  /** `[r for r in rows if not r[col]]`. */
  function Incorrect(rows: seq<Row>, col: nat): seq<Row>
    requires LongEnough(rows, col)
  {
    IncorrectFrom(rows, col, 0)
  }

  /** The positions from `from` on, in increasing order, of the rows whose cell `col` is falsy. */
  function FalsyPositions(rows: seq<Row>, col: nat, from: nat): (r: seq<nat>)
    requires LongEnough(rows, col) && from <= |rows|
    ensures forall i :: 0 <= i < |r| ==> from <= r[i] < |rows|
    decreases |rows| - from
  {
    if from == |rows| then []
    else
      var rest := FalsyPositions(rows, col, from + 1);
      if Truthy(rows[from].cells[col]) then rest else [from] + rest
  }

  /**
   * `FalsyPositions` lists each position whose cell is falsy, and no other,
   * once and in increasing order.
   */
  lemma FalsyPositionsExact(rows: seq<Row>, col: nat, from: nat)
    requires LongEnough(rows, col) && from <= |rows|
    ensures var r := FalsyPositions(rows, col, from);
      StrictlyIncreasing(r) &&
      (forall i :: 0 <= i < |r| ==> !Truthy(rows[r[i]].cells[col])) &&
      (forall p :: from <= p < |rows| && !Truthy(rows[p].cells[col]) ==> p in r)
  {
    FalsyPositionsIncreasing(rows, col, from);
    FalsyPositionsFalsy(rows, col, from);
    FalsyPositionsComplete(rows, col, from);
  }

  lemma {:induction false} FalsyPositionsIncreasing(rows: seq<Row>, col: nat, from: nat)
    requires LongEnough(rows, col) && from <= |rows|
    ensures StrictlyIncreasing(FalsyPositions(rows, col, from))
    decreases |rows| - from
  {
    if from < |rows| {
      FalsyPositionsIncreasing(rows, col, from + 1);
      var rest := FalsyPositions(rows, col, from + 1);
      if !Truthy(rows[from].cells[col]) {
        var r := [from] + rest;
        forall i, j | 0 <= i < j < |r| ensures r[i] < r[j] {
          assert r[j] == rest[j - 1];
          if i > 0 { assert r[i] == rest[i - 1]; }
        }
      }
    }
  }

  lemma {:induction false} FalsyPositionsFalsy(rows: seq<Row>, col: nat, from: nat)
    requires LongEnough(rows, col) && from <= |rows|
    ensures forall i :: 0 <= i < |FalsyPositions(rows, col, from)| ==>
      !Truthy(rows[FalsyPositions(rows, col, from)[i]].cells[col])
    decreases |rows| - from
  {
    if from < |rows| {
      FalsyPositionsFalsy(rows, col, from + 1);
      var rest := FalsyPositions(rows, col, from + 1);
      if !Truthy(rows[from].cells[col]) {
        var r := [from] + rest;
        assert forall i :: 1 <= i < |r| ==> r[i] == rest[i - 1];
      }
    }
  }

  lemma {:induction false} FalsyPositionsComplete(rows: seq<Row>, col: nat, from: nat)
    requires LongEnough(rows, col) && from <= |rows|
    ensures forall p :: from <= p < |rows| && !Truthy(rows[p].cells[col]) ==> p in FalsyPositions(rows, col, from)
    decreases |rows| - from
  {
    if from < |rows| {
      FalsyPositionsComplete(rows, col, from + 1);
    }
  }

  lemma {:induction false} IncorrectFromSelects(rows: seq<Row>, col: nat, from: nat)
    requires LongEnough(rows, col) && from <= |rows|
    ensures IncorrectFrom(rows, col, from) == Select(rows, FalsyPositions(rows, col, from))
    decreases |rows| - from
  {
    if from < |rows| {
      IncorrectFromSelects(rows, col, from + 1);
      var rest := FalsyPositions(rows, col, from + 1);
      if !Truthy(rows[from].cells[col]) {
        assert FalsyPositions(rows, col, from) == [from] + rest;
        SelectCons(rows, from, rest);
      }
    }
  }

  lemma SelectCons(rows: seq<Row>, p: nat, rest: seq<nat>)
    requires p < |rows| && forall i :: 0 <= i < |rest| ==> rest[i] < |rows|
    ensures Select(rows, [p] + rest) == [rows[p]] + Select(rows, rest)
  {
    assert ([p] + rest)[1..] == rest;
  }

  /**
   * The filter keeps exactly the rows whose `correct` cell is falsy, in their
   * original order: it selects every falsy position, in increasing order.
   */
  lemma IncorrectSelectsFalsyRows(rows: seq<Row>, col: nat)
    requires LongEnough(rows, col)
    ensures Incorrect(rows, col) == Select(rows, FalsyPositions(rows, col, 0))
  {
    IncorrectFromSelects(rows, col, 0);
  }

  /** No kept row is marked correct. */
  lemma NoKeptRowIsCorrect(rows: seq<Row>, col: nat)
    requires LongEnough(rows, col)
    ensures forall i :: 0 <= i < |Incorrect(rows, col)| ==>
      col < |Incorrect(rows, col)[i].cells| && !Truthy(Incorrect(rows, col)[i].cells[col])
  {
    IncorrectSelectsFalsyRows(rows, col);
    FalsyPositionsExact(rows, col, 0);
    SelectAt(rows, FalsyPositions(rows, col, 0));
  }

  // ---------------------------------------------------------------------------
  // Sampling
  // ---------------------------------------------------------------------------

  function Min(a: int, b: int): int { if a <= b then a else b }

  /** `[0, 1, ..., n - 1]`. */
  function Range(n: nat): (r: seq<nat>)
    ensures |r| == n && forall i :: 0 <= i < n ==> r[i] == i
  {
    seq(n, i requires 0 <= i < n => i)
  }

  /** `s` without its element at `d`. */
  function RemoveAt(s: seq<nat>, d: nat): (r: seq<nat>)
    requires d < |s|
    ensures |r| == |s| - 1
    ensures forall i :: 0 <= i < d ==> r[i] == s[i]
    ensures forall i :: d <= i < |r| ==> r[i] == s[i + 1]
  {
    s[..d] + s[d + 1..]
  }

  /** Removing an element keeps the others. */
  lemma RemoveAtMembers(s: seq<nat>, d: nat)
    requires d < |s|
    ensures forall x :: x in RemoveAt(s, d) ==> x in s
    ensures forall i :: 0 <= i < |s| && i != d ==> s[i] in RemoveAt(s, d)
  {
    var r := RemoveAt(s, d);
    forall i | 0 <= i < |s| && i != d ensures s[i] in r {
      if i < d { assert r[i] == s[i]; } else { assert r[i - 1] == s[i]; }
    }
  }

  /** Removing an element of a sequence without duplicates drops that one and keeps no duplicates. */
  lemma RemoveAtDistinct(s: seq<nat>, d: nat)
    requires d < |s| && Distinct(s)
    ensures Distinct(RemoveAt(s, d))
    ensures forall i :: 0 <= i < |RemoveAt(s, d)| ==> RemoveAt(s, d)[i] != s[d]
  {
    var r := RemoveAt(s, d);
    forall i, j | 0 <= i < j < |r| ensures r[i] != r[j] {
      var pi := if i < d then i else i + 1;
      var pj := if j < d then j else j + 1;
      assert r[i] == s[pi] && r[j] == s[pj];
    }
    forall i | 0 <= i < |r| ensures r[i] != s[d] {
      var pi := if i < d then i else i + 1;
      assert r[i] == s[pi];
    }
  }

  /** Which of `n` remaining positions the next random number picks (0 once none is left). */
  function DrawIndex(n: nat, draws: seq<int>): (d: nat)
    requires n > 0
    ensures d < n
  {
    if draws == [] then 0 else draws[0] % n
  }

  /** The random numbers left after one is used. */
  function Later(draws: seq<int>): seq<int> {
    if draws == [] then [] else draws[1..]
  }

  function PickPositions(pool: seq<nat>, k: nat, draws: seq<int>): (r: seq<nat>)
    ensures |r| == Min(k, |pool|)
    ensures forall i :: 0 <= i < |r| ==> r[i] in pool
    decreases k
  {
    if k == 0 || pool == [] then []
    else
      var d := DrawIndex(|pool|, draws);
      RemoveAtMembers(pool, d);
      [pool[d]] + PickPositions(RemoveAt(pool, d), k - 1, Later(draws))
  }

  /** Drawing from distinct positions gives distinct positions. */
  lemma {:induction false} PickPositionsDistinct(pool: seq<nat>, k: nat, draws: seq<int>)
    requires Distinct(pool)
    ensures Distinct(PickPositions(pool, k, draws))
    decreases k
  {
    if k > 0 && pool != [] {
      var d := DrawIndex(|pool|, draws);
      RemoveAtDistinct(pool, d);
      PickPositionsDistinct(RemoveAt(pool, d), k - 1, Later(draws));
      PickStepDistinct(pool, k, draws);
    }
  }

  lemma PickStepDistinct(pool: seq<nat>, k: nat, draws: seq<int>)
    requires k > 0 && pool != [] && Distinct(pool)
    requires Distinct(PickPositions(RemoveAt(pool, DrawIndex(|pool|, draws)), k - 1, Later(draws)))
    ensures Distinct(PickPositions(pool, k, draws))
  {
    var d := DrawIndex(|pool|, draws);
    var smaller := RemoveAt(pool, d);
    var rest := PickPositions(smaller, k - 1, Later(draws));
    RemoveAtDistinct(pool, d);
    forall i | 0 <= i < |rest| ensures rest[i] != pool[d] {
      var p := Find(smaller, rest[i]);
    }
    ConsDistinct(pool[d], rest);
    assert PickPositions(pool, k, draws) == [pool[d]] + rest;
  }

  lemma ConsDistinct(x: nat, rest: seq<nat>)
    requires Distinct(rest)
    requires forall i :: 0 <= i < |rest| ==> rest[i] != x
    ensures Distinct([x] + rest)
  {
    var r := [x] + rest;
    forall i, j | 0 <= i < j < |r| ensures r[i] != r[j] {
      assert r[j] == rest[j - 1];
      if i > 0 { assert r[i] == rest[i - 1]; }
    }
  }

  /** The positions `random.sample(rows, k)` selects, given the random numbers drawn. */
  function SamplePositions(n: nat, k: nat, draws: seq<int>): (r: seq<nat>)
    ensures |r| == Min(k, n) && Distinct(r)
    ensures forall i :: 0 <= i < |r| ==> r[i] < n
  {
    var r := PickPositions(Range(n), k, draws);
    PickPositionsDistinct(Range(n), k, draws);
    assert forall i :: 0 <= i < |r| ==> r[i] in Range(n);
    r
  }

  /** `random.sample(rows, min(len(rows), n))`. */
  function Sample(rows: seq<Row>, n: nat, draws: seq<int>): seq<Row> {
    Select(rows, SamplePositions(|rows|, Min(|rows|, n), draws))
  }

  /**
   * A sample has exactly `min(len(rows), n)` rows, taken from distinct
   * positions of the input.
   */
  lemma SampleFromDistinctPositions(rows: seq<Row>, n: nat, draws: seq<int>)
    ensures |Sample(rows, n, draws)| == Min(|rows|, n)
    ensures var pos := SamplePositions(|rows|, Min(|rows|, n), draws);
      Distinct(pos) && (forall i :: 0 <= i < |pos| ==> pos[i] < |rows|) &&
      forall i :: 0 <= i < |pos| ==> Sample(rows, n, draws)[i] == rows[pos[i]]
  {
    SelectAt(rows, SamplePositions(|rows|, Min(|rows|, n), draws));
  }

  lemma ModSmall(d: nat, n: nat)
    requires d < n
    ensures d % n == d
  {
  }

  /** Position of `x` in `s`. */
  function Find(s: seq<nat>, x: nat): (r: nat)
    requires x in s
    ensures r < |s| && s[r] == x
  {
    if s[0] == x then 0 else 1 + Find(s[1..], x)
  }

  lemma TailDistinct(s: seq<nat>)
    requires s != [] && Distinct(s)
    ensures Distinct(s[1..]) && forall i :: 0 <= i < |s| - 1 ==> s[1..][i] != s[0]
  {
    forall i, j | 0 <= i < j < |s| - 1 ensures s[1..][i] != s[1..][j] {
      assert s[1..][i] == s[i + 1] && s[1..][j] == s[j + 1];
    }
  }

  /** The random numbers that make `PickPositions` choose `choice` from `pool`. */
  function DrawsFor(pool: seq<nat>, choice: seq<nat>): seq<int>
    requires forall i :: 0 <= i < |choice| ==> choice[i] in pool
    decreases |choice|
  {
    if choice == [] then []
    else
      var d := Find(pool, choice[0]);
      if forall i :: 0 <= i < |choice| - 1 ==> choice[1..][i] in RemoveAt(pool, d) then
        [d as int] + DrawsFor(RemoveAt(pool, d), choice[1..])
      else [d as int]
  }

  /**
   * Every choice of distinct positions from the pool is made by some random
   * numbers: the sampling model leaves the choice entirely to chance.
   */
  lemma {:induction false} EveryChoicePossible(pool: seq<nat>, choice: seq<nat>)
    requires Distinct(pool) && Distinct(choice)
    requires forall i :: 0 <= i < |choice| ==> choice[i] in pool
    ensures PickPositions(pool, |choice|, DrawsFor(pool, choice)) == choice
    decreases |choice|
  {
    if choice != [] {
      var d := Find(pool, choice[0]);
      RemainingChoice(pool, choice, d);
      EveryChoicePossible(RemoveAt(pool, d), choice[1..]);
      ChoiceStep(pool, choice);
    }
  }

  lemma ChoiceStep(pool: seq<nat>, choice: seq<nat>)
    requires choice != [] && forall i :: 0 <= i < |choice| ==> choice[i] in pool
    requires forall i :: 0 <= i < |choice| - 1 ==> choice[1..][i] in RemoveAt(pool, Find(pool, choice[0]))
    requires PickPositions(RemoveAt(pool, Find(pool, choice[0])), |choice| - 1,
                           DrawsFor(RemoveAt(pool, Find(pool, choice[0])), choice[1..])) == choice[1..]
    ensures PickPositions(pool, |choice|, DrawsFor(pool, choice)) == choice
  {
    var d := Find(pool, choice[0]);
    var tail := DrawsFor(RemoveAt(pool, d), choice[1..]);
    assert DrawsFor(pool, choice) == [d as int] + tail;
    PickFirst(pool, d, |choice| - 1, tail);
    HeadTail(choice);
  }

  lemma HeadTail(s: seq<nat>)
    requires s != []
    ensures [s[0]] + s[1..] == s
  {
  }

  /** A first random number `d` picks the position at `d` and leaves the rest to the others. */
  lemma PickFirst(pool: seq<nat>, d: nat, k: nat, tail: seq<int>)
    requires d < |pool|
    ensures PickPositions(pool, k + 1, [d as int] + tail) == [pool[d]] + PickPositions(RemoveAt(pool, d), k, tail)
  {
    var draws := [d as int] + tail;
    assert Later(draws) == tail;
    ModSmall(d, |pool|);
    assert DrawIndex(|pool|, draws) == d;
  }

  /** Once the first choice is taken from the pool, the other choices are still in it. */
  lemma RemainingChoice(pool: seq<nat>, choice: seq<nat>, d: nat)
    requires Distinct(pool) && Distinct(choice) && choice != []
    requires forall i :: 0 <= i < |choice| ==> choice[i] in pool
    requires d < |pool| && pool[d] == choice[0]
    ensures Distinct(RemoveAt(pool, d)) && Distinct(choice[1..])
    ensures forall i :: 0 <= i < |choice| - 1 ==> choice[1..][i] in RemoveAt(pool, d)
  {
    RemoveAtDistinct(pool, d);
    TailDistinct(choice);
    forall i | 0 <= i < |choice| - 1 ensures choice[1..][i] in RemoveAt(pool, d) {
      var p := Find(pool, choice[1..][i]);
      assert p != d;
    }
  }

  /** Every selection of `min(len(rows), n)` distinct positions is a possible sample. */
  lemma EverySampleReachable(rows: seq<Row>, n: nat, choice: seq<nat>)
    requires Distinct(choice) && |choice| == Min(|rows|, n)
    requires forall i :: 0 <= i < |choice| ==> choice[i] < |rows|
    ensures exists draws :: SamplePositions(|rows|, Min(|rows|, n), draws) == choice
  {
    var pool := Range(|rows|);
    forall i | 0 <= i < |choice| ensures choice[i] in pool {
      assert pool[choice[i]] == choice[i];
    }
    EveryChoicePossible(pool, choice);
    var draws := DrawsFor(pool, choice);
    assert SamplePositions(|rows|, Min(|rows|, n), draws) == choice;
  }
}
