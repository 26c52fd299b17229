/**
 * The slot accounting of the fill loop in `copyRowsAndFillData`: which rows
 * of one copy of a table template the loop hands to `fillCells` when the
 * template holds nested `#TABLE` blocks. Slot `k` is the copy of template
 * row `k`; a nested block is expanded by the `fillCells` call on its start
 * marker, so the loop must go on at the slot right after the block's end
 * marker.
 */
module NestedSlots {
  import opened Outcomes
  import opened Grid
  import opened Markers

  /**
   * The `counter` of `decreaseNumberOfRowsToFill`: the distance from the
   * nested start marker at `at` to the first row below it holding `name`,
   * looked for up to `size` rows down; `size + 1` when there is none.
   */
  function EndDistance(rows: Rows, at: int, name: string, size: nat): (c: nat)
    ensures 1 <= c <= size + 1
    ensures forall j :: at < j < at + c ==> !HasString(RowAt(rows, j), name)
    ensures c <= size ==> HasString(RowAt(rows, at + c), name)
  {
    DistanceFrom(rows, at, name, size, 1)
  }

  /** The search of `EndDistance`, from distance `counter` on. */
  function DistanceFrom(rows: Rows, at: int, name: string, size: nat, counter: nat): (c: nat)
    requires 1 <= counter <= size + 1
    requires forall j :: at < j < at + counter ==> !HasString(RowAt(rows, j), name)
    decreases size + 1 - counter
    ensures counter <= c <= size + 1
    ensures forall j :: at < j < at + c ==> !HasString(RowAt(rows, j), name)
    ensures c <= size ==> HasString(RowAt(rows, at + c), name)
  {
    if !HasString(RowAt(rows, at + counter), name) && counter <= size
    then DistanceFrom(rows, at, name, size, counter + 1)
    else counter
  }

  /**
   * Slot `k` opens a nested table: the loop's `startWithString(row, TABLE)`.
   * The slot accounting below describes the rows filled only for markers that
   * `fillCells` expands, that is markers `hasKey` accepts (`#TABLEn#`, with
   * the closing `#`); a marker without it is filled like a plain row.
   */
  predicate Nested(rows: Rows, k: int) {
    StartWithString(RowAt(rows, k), TABLE)
  }

  /**
   * The last slot of the block that starts at slot `k`: the nested table's
   * end marker (searched for up to the template's size), or `k` itself for
   * any other row.
   */
  function BlockLast(rows: Rows, k: int): (e: int)
    ensures k <= e
    ensures !Nested(rows, k) ==> e == k
  {
    if Nested(rows, k) then k + EndDistance(rows, k, FirstText(RowAt(rows, k)).value, |rows|) else k
  }

  /**
   * A nested block whose end marker is found ends at the first row below its
   * start marker that holds the table's name.
   */
  lemma BlockEndsAtMarker(rows: Rows, k: int)
    requires Nested(rows, k) && BlockLast(rows, k) <= k + |rows|
    ensures HasString(RowAt(rows, BlockLast(rows, k)), FirstText(RowAt(rows, k)).value)
    ensures forall j :: k < j < BlockLast(rows, k) ==> !HasString(RowAt(rows, j), FirstText(RowAt(rows, k)).value)
  {
  }

  /**
   * The slots, from `slot` on, whose rows the loop hands to `fillCells`. The
   * fill cursor always goes on at the slot right after the block it filled
   * (a nested table is expanded by the `fillCells` call on its start marker),
   * while the loop's `index` runs `lag` slots ahead of the cursor and the loop
   * stops once `index` reaches the template's size. At a nested start marker
   * `index` moves past the block and then `extra` slots further: the source
   * has `extra == 2`, the corrected loop `extra == 0`.
   */
  function Visited(rows: Rows, slot: nat, lag: nat, extra: nat): (v: seq<nat>)
    decreases |rows| - slot
    ensures forall k :: 0 <= k < |v| ==> slot <= v[k] < |rows|
  {
    if slot + lag >= |rows| then []
    else
      var lag' := if Nested(rows, slot) then lag + extra else lag;
      [slot] + Visited(rows, BlockLast(rows, slot) + 1, lag', extra)
  }

  /** Slot `i` is visited, or lies inside the nested block of a visited slot. */
  predicate Covered(rows: Rows, v: seq<nat>, i: int) {
    exists k :: 0 <= k < |v| && v[k] <= i <= BlockLast(rows, v[k])
  }

  /**
   * The blocks of the slots `v` come in order without overlapping, and cover
   * every slot from `index` on.
   */
  predicate Tiles(rows: Rows, index: int, v: seq<nat>) {
    InOrder(rows, v) && CoversFrom(rows, index, v)
  }

  /** Each block of `v` ends above the start of every later one. */
  predicate InOrder(rows: Rows, v: seq<nat>) {
    forall k, k' :: 0 <= k < k' < |v| ==> BlockLast(rows, v[k]) < v[k']
  }

  /** Every slot from `index` on is visited or inside a visited block. */
  predicate CoversFrom(rows: Rows, index: int, v: seq<nat>) {
    forall i :: index <= i < |rows| ==> Covered(rows, v, i)
  }

  /**
   * With the corrected step the visited blocks tile the template: every slot
   * from `slot` on is visited exactly once or lies inside the nested block
   * of exactly one visited slot.
   */
  lemma VisitedTiles(rows: Rows, slot: nat)
    ensures Tiles(rows, slot, Visited(rows, slot, 0, 0))
  {
    VisitedInOrder(rows, slot);
    VisitedCovers(rows, slot);
  }

  /** The corrected loop's blocks come in order without overlapping. */
  lemma {:induction false} VisitedInOrder(rows: Rows, slot: nat)
    ensures InOrder(rows, Visited(rows, slot, 0, 0))
    decreases |rows| - slot
  {
    if slot < |rows| {
      var last := BlockLast(rows, slot);
      var v := Visited(rows, slot, 0, 0);
      var w := Visited(rows, last + 1, 0, 0);
      assert v == [slot] + w;
      VisitedInOrder(rows, last + 1);
      forall k, k' | 0 <= k < k' < |v|
        ensures BlockLast(rows, v[k]) < v[k']
      {
        assert v[k'] == w[k' - 1];
        if k > 0 {
          assert v[k] == w[k - 1];
        } else {
          assert last + 1 <= w[k' - 1];
        }
      }
    }
  }

  /** The corrected loop's blocks cover every slot from `slot` on. */
  lemma {:induction false} VisitedCovers(rows: Rows, slot: nat)
    ensures CoversFrom(rows, slot, Visited(rows, slot, 0, 0))
    decreases |rows| - slot
  {
    if slot < |rows| {
      var last := BlockLast(rows, slot);
      var v := Visited(rows, slot, 0, 0);
      var w := Visited(rows, last + 1, 0, 0);
      assert v == [slot] + w;
      VisitedCovers(rows, last + 1);
      forall i | slot <= i < |rows|
        ensures Covered(rows, v, i)
      {
        if i <= last {
          assert v[0] == slot;
        } else {
          assert Covered(rows, w, i);
          var k :| 0 <= k < |w| && w[k] <= i <= BlockLast(rows, w[k]);
          assert v[k + 1] == w[k];
        }
      }
    }
  }

  /**
   * Whatever the extra step, the loop fills the same blocks as the corrected
   * loop, in the same order: only it may stop sooner.
   */
  lemma {:induction false} VisitedPrefix(rows: Rows, slot: nat, lag: nat, extra: nat)
    ensures Visited(rows, slot, lag, extra) <= Visited(rows, slot, 0, 0)
    decreases |rows| - slot
  {
    if slot + lag < |rows| {
      var lag' := if Nested(rows, slot) then lag + extra else lag;
      VisitedPrefix(rows, BlockLast(rows, slot) + 1, lag', extra);
    }
  }

  /**
   * Once the index runs ahead of the cursor, a last template row that the
   * corrected loop fills as a plain row is never reached.
   */
  lemma {:induction false} LaggingMissesLastRow(rows: Rows, slot: nat, lag: nat, extra: nat)
    requires lag >= 1
    requires |rows| - 1 in Visited(rows, slot, 0, 0) && !Nested(rows, |rows| - 1)
    ensures |rows| - 1 !in Visited(rows, slot, lag, extra)
    decreases |rows| - slot
  {
    if slot + lag < |rows| {
      var last := BlockLast(rows, slot);
      var lag' := if Nested(rows, slot) then lag + extra else lag;
      assert Visited(rows, slot, 0, 0) == [slot] + Visited(rows, last + 1, 0, 0);
      LaggingMissesLastRow(rows, last + 1, lag', extra);
    }
  }

  /**
   * As written, every nested table the loop expands costs the template's last
   * row: when that row is a plain row the corrected loop fills, the source's
   * loop has stopped before it.
   */
  lemma {:induction false} NestedBlockCostsLastRow(rows: Rows, slot: nat, lag: nat)
    requires |rows| - 1 in Visited(rows, slot, 0, 0) && !Nested(rows, |rows| - 1)
    requires exists k :: k in Visited(rows, slot, lag, 2) && Nested(rows, k)
    ensures |rows| - 1 !in Visited(rows, slot, lag, 2)
    decreases |rows| - slot, 1
  {
    assert slot + lag < |rows|;
    if Nested(rows, slot) {
      NestedHereCostsLastRow(rows, slot, lag);
    } else {
      NestedLaterCostsLastRow(rows, slot, lag);
    }
  }

  /** `NestedBlockCostsLastRow` when the nested table starts at `slot` itself. */
  lemma NestedHereCostsLastRow(rows: Rows, slot: nat, lag: nat)
    requires |rows| - 1 in Visited(rows, slot, 0, 0) && !Nested(rows, |rows| - 1)
    requires slot + lag < |rows| && Nested(rows, slot)
    ensures |rows| - 1 !in Visited(rows, slot, lag, 2)
  {
    var last := BlockLast(rows, slot);
    assert Visited(rows, slot, lag, 2) == [slot] + Visited(rows, last + 1, lag + 2, 2);
    assert Visited(rows, slot, 0, 0) == [slot] + Visited(rows, last + 1, 0, 0);
    LaggingMissesLastRow(rows, last + 1, lag + 2, 2);
  }

  /** `NestedBlockCostsLastRow` when the nested table starts further down. */
  lemma {:induction false} NestedLaterCostsLastRow(rows: Rows, slot: nat, lag: nat)
    requires |rows| - 1 in Visited(rows, slot, 0, 0) && !Nested(rows, |rows| - 1)
    requires exists k :: k in Visited(rows, slot, lag, 2) && Nested(rows, k)
    requires slot + lag < |rows| && !Nested(rows, slot)
    ensures |rows| - 1 !in Visited(rows, slot, lag, 2)
    decreases |rows| - slot, 0
  {
    var k :| k in Visited(rows, slot, lag, 2) && Nested(rows, k);
    assert BlockLast(rows, slot) == slot;
    var w := Visited(rows, slot + 1, lag, 2);
    assert Visited(rows, slot, lag, 2) == [slot] + w;
    assert k != slot;
    assert k in w;
    assert slot != |rows| - 1;
    assert Visited(rows, slot, 0, 0) == [slot] + Visited(rows, slot + 1, 0, 0);
    assert k in Visited(rows, slot + 1, lag, 2) && Nested(rows, k);
    NestedBlockCostsLastRow(rows, slot + 1, lag);
  }

  /** The template `#a#`, `#TABLEn#`, `#n#`, `#TABLEn#`, `#b#`, `#c#`, `#d#`, `#e#`. */
  function NestedExample(): (rows: Rows)
    ensures |rows| == 8
  {
    [TextRow("#a#"), TextRow("#TABLEn#"), TextRow("#n#"), TextRow("#TABLEn#"),
     TextRow("#b#"), TextRow("#c#"), TextRow("#d#"), TextRow("#e#")]
  }

  /** Eight slots: one nested table over slots 1 to 3, every other slot a plain row. */
  predicate ExampleShape(rows: Rows) {
    && |rows| == 8
    && Nested(rows, 1) && BlockLast(rows, 1) == 3
    && !Nested(rows, 0) && !Nested(rows, 4) && !Nested(rows, 5) && !Nested(rows, 6) && !Nested(rows, 7)
  }

  /** The blocks of `NestedExample`: one nested table over slots 1 to 3, every other slot alone. */
  lemma NestedExampleBlocks()
    ensures HasKey(TextRow("#TABLEn#").value[0])
    ensures ExampleShape(NestedExample())
  {
  }

  /** As written, a template of that shape is filled at slots 0, 1, 4 and 5 only. */
  lemma {:induction false} ShapeSkipped(rows: Rows)
    requires ExampleShape(rows)
    ensures var v := Visited(rows, 0, 0, 2);
            && v == [0, 1, 4, 5]
            && !Covered(rows, v, 6) && !Covered(rows, v, 7)
  {
    assert Visited(rows, 6, 2, 2) == [];
    assert Visited(rows, 5, 2, 2) == [5];
    assert Visited(rows, 4, 2, 2) == [4, 5];
    assert Visited(rows, 1, 0, 2) == [1, 4, 5];
    var v := [0, 1, 4, 5];
    assert forall k :: 0 <= k < |v| ==> BlockLast(rows, v[k]) < 6;
  }

  /** With the corrected step, a template of that shape is filled at every slot outside the nested table. */
  lemma {:induction false} ShapeFilled(rows: Rows)
    requires ExampleShape(rows)
    ensures Visited(rows, 0, 0, 0) == [0, 1, 4, 5, 6, 7]
  {
    assert Visited(rows, 8, 0, 0) == [];
    assert Visited(rows, 7, 0, 0) == [7];
    assert Visited(rows, 6, 0, 0) == [6, 7];
    assert Visited(rows, 5, 0, 0) == [5, 6, 7];
    assert Visited(rows, 4, 0, 0) == [4, 5, 6, 7];
    assert Visited(rows, 1, 0, 0) == [1, 4, 5, 6, 7];
  }

  /**
   * In `NestedExample` the source's loop fills `#a#`, expands the nested
   * table and fills `#b#` and `#c#`, then stops: `#d#` and `#e#` are neither
   * visited nor part of a visited block.
   */
  lemma TrailingRowsSkipped()
    ensures var rows := NestedExample();
            var v := Visited(rows, 0, 0, 2);
            && v == [0, 1, 4, 5]
            && !Covered(rows, v, 6) && !Covered(rows, v, 7)
  {
    NestedExampleBlocks();
    ShapeSkipped(NestedExample());
  }

  /** The corrected loop fills every slot of `NestedExample` outside the nested table. */
  lemma TrailingRowsFilled()
    ensures Visited(NestedExample(), 0, 0, 0) == [0, 1, 4, 5, 6, 7]
  {
    NestedExampleBlocks();
    ShapeFilled(NestedExample());
  }
}
