/**
 * The measurement table: one row per (spine, frame) with the box's diagonal in
 * pixels and microns and its stability flag (label_dendritic_spines.py,
 * save_annotation and the rebuild in load_annotations). The table is a sequence
 * of rows; removing a key keeps the other rows in their order, as a pandas
 * mask does, and an upsert appends the new row after them, as pd.concat does.
 */
module Measurements {
  import opened Geometry

  /** Pixels to microns: 1 / 7.75. */
  const PixelToMicron: real := 1.0 / 7.75

  /** A diagonal shorter than this many pixels is classified stable. */
  const StabilityThreshold: real := 50.0

  /** One row of the table: spine_name, image_idx, length_pixels, length_microns, stable. */
  datatype Row = Row(spineName: string, imageIdx: int, lengthPixels: real, lengthMicrons: real, stable: bool)

  /** The key a row is upserted and deleted under. */
  function Key(r: Row): (string, int)
  {
    (r.spineName, r.imageIdx)
  }

  /** The square root the tool relies on (math.sqrt), stated exactly over the reals. */
  ghost predicate IsSqrt(sqrt: real -> real)
  {
    forall x: real :: 0.0 <= x ==> 0.0 <= sqrt(x) && sqrt(x) * sqrt(x) == x
  }

  /** (x2 - x1)^2 + (y2 - y1)^2: the squared diagonal of a box. */
  function DiagonalSq(b: Box): (d: int)
    ensures d >= 0
  {
    (b.x2 - b.x1) * (b.x2 - b.x1) + (b.y2 - b.y1) * (b.y2 - b.y1)
  }

  /** The row the tool derives for box b of spine `spine` on frame `idx`. */
  function Measure(spine: string, idx: int, b: Box, sqrt: real -> real): (r: Row)
    ensures Key(r) == (spine, idx)
  {
    var pixels := sqrt(DiagonalSq(b) as real);
    Row(spine, idx, pixels, pixels * PixelToMicron, pixels < StabilityThreshold)
  }

  /** For non-negative a and b, a < b exactly when a^2 < b^2. */
  lemma SquareLess(a: real, b: real)
    requires 0.0 <= a && 0.0 <= b
    ensures a < b <==> a * a < b * b
  {
    var u, v := b - a, b + a;
    assert u * v == b * b - a * a;
    if a < b {
      assert u * v > 0.0;
    } else {
      assert (-u) * v >= 0.0;
    }
  }

  /**
   * The derived row holds the Euclidean diagonal of the box, its length in
   * microns, and is stable exactly when the squared diagonal is below 50^2.
   */
  lemma MeasureFacts(spine: string, idx: int, b: Box, sqrt: real -> real)
    requires IsSqrt(sqrt)
    ensures var r := Measure(spine, idx, b, sqrt);
      && 0.0 <= r.lengthPixels
      && r.lengthPixels * r.lengthPixels == DiagonalSq(b) as real
      && r.lengthMicrons == r.lengthPixels / 7.75
      && (r.stable <==> DiagonalSq(b) < 2500)
  {
    var p := sqrt(DiagonalSq(b) as real);
    SquareLess(p, StabilityThreshold);
  }

  /** The box (10,10)-(50,50): diagonal about 56.57 pixels, about 7.30 microns, not stable. */
  lemma ScenarioUnstableBox(sqrt: real -> real)
    requires IsSqrt(sqrt)
    ensures var r := Measure("spine_1", 0, Box(10, 10, 50, 50), sqrt);
      && !r.stable
      && 56.56 < r.lengthPixels < 56.58
      && 7.29 < r.lengthMicrons < 7.31
  {
    var b := Box(10, 10, 50, 50);
    MeasureFacts("spine_1", 0, b, sqrt);
    var p := sqrt(DiagonalSq(b) as real);
    assert p * p == 3200.0;
    SquareLess(56.56, p);
    SquareLess(p, 56.58);
  }

  /** The box (15,15)-(50,50): diagonal about 49.50 pixels, stable. */
  lemma ScenarioStableBox(sqrt: real -> real)
    requires IsSqrt(sqrt)
    ensures var r := Measure("spine_1", 0, Box(15, 15, 50, 50), sqrt);
      && r.stable
      && 49.49 < r.lengthPixels < 49.51
  {
    var b := Box(15, 15, 50, 50);
    MeasureFacts("spine_1", 0, b, sqrt);
    var p := sqrt(DiagonalSq(b) as real);
    assert p * p == 2450.0;
    SquareLess(49.49, p);
    SquareLess(p, 49.51);
  }

  /** How many rows of the table carry key k. */
  function CountKey(rows: seq<Row>, k: (string, int)): nat
  {
    if rows == [] then 0
    else CountKey(rows[..|rows| - 1], k) + (if Key(rows[|rows| - 1]) == k then 1 else 0)
  }

  /** A table in which no row carries key k has no row counted under k. */
  lemma {:induction false} CountKeyAbsent(rows: seq<Row>, k: (string, int))
    requires forall r :: r in rows ==> Key(r) != k
    ensures CountKey(rows, k) == 0
  {
    if rows != [] {
      assert forall r :: r in rows[..|rows| - 1] ==> r in rows;
      CountKeyAbsent(rows[..|rows| - 1], k);
    }
  }

  /** Appending one row adds one to its own key's count and leaves every other count alone. */
  lemma CountKeyAppend(rows: seq<Row>, r: Row, k: (string, int))
    ensures CountKey(rows + [r], k) == CountKey(rows, k) + (if Key(r) == k then 1 else 0)
  {
    assert (rows + [r])[..|rows|] == rows;
  }

  /**
   * The table with every row under key k masked out: the rows with another
   * key, in their original order.
   */
  function RemoveKey(rows: seq<Row>, k: (string, int)): (r: seq<Row>)
    ensures |r| <= |rows|
  {
    if rows == [] then []
    else
      var init, last := rows[..|rows| - 1], rows[|rows| - 1];
      assert rows == init + [last];
      RemoveKey(init, k) + (if Key(last) == k then [] else [last])
  }

  /** The rows kept by masking out k are exactly the rows under another key. */
  lemma {:induction false} RemoveKeyMembers(rows: seq<Row>, k: (string, int))
    ensures forall x :: x in RemoveKey(rows, k) <==> x in rows && Key(x) != k
  {
    if rows != [] {
      var init, last := rows[..|rows| - 1], rows[|rows| - 1];
      RemoveKeyMembers(init, k);
      assert rows == init + [last];
    }
  }

  /** Masking out k leaves no row under k and every other key's count as it was. */
  lemma {:induction false} RemoveKeyCount(rows: seq<Row>, k: (string, int), k': (string, int))
    ensures CountKey(RemoveKey(rows, k), k') == if k' == k then 0 else CountKey(rows, k')
  {
    if rows != [] {
      var init, last := rows[..|rows| - 1], rows[|rows| - 1];
      RemoveKeyCount(init, k, k');
      if Key(last) == k {
        assert RemoveKey(rows, k) == RemoveKey(init, k);
      } else {
        CountKeyAppend(RemoveKey(init, k), last, k');
      }
    }
  }

  /** Masking out a key no row carries leaves the table as it is. */
  lemma {:induction false} RemoveKeyAbsent(rows: seq<Row>, k: (string, int))
    requires forall j :: 0 <= j < |rows| ==> Key(rows[j]) != k
    ensures RemoveKey(rows, k) == rows
  {
    if rows != [] {
      var init, last := rows[..|rows| - 1], rows[|rows| - 1];
      assert Key(last) != k;
      assert forall j :: 0 <= j < |init| ==> Key(init[j]) != k by {
        forall j | 0 <= j < |init| ensures Key(init[j]) != k {
          assert init[j] == rows[j];
        }
      }
      calc {
        RemoveKey(rows, k);
        RemoveKey(init, k) + [last];
        { RemoveKeyAbsent(init, k); }
        init + [last];
        rows;
      }
    }
  }

  /** Replace the rows under the new row's key by that row, appended at the end. */
  function Upsert(rows: seq<Row>, row: Row): (r: seq<Row>)
    ensures 0 < |r| <= |rows| + 1 && r[|r| - 1] == row
  {
    RemoveKey(rows, Key(row)) + [row]
  }

  /**
   * After an upsert exactly one row carries the new row's key, every other
   * key keeps its count, and the rows present are the new row and the old
   * rows under other keys.
   */
  lemma UpsertCount(rows: seq<Row>, row: Row, k: (string, int))
    ensures CountKey(Upsert(rows, row), k) == if k == Key(row) then 1 else CountKey(rows, k)
    ensures forall x :: x in Upsert(rows, row) <==> x == row || (x in rows && Key(x) != Key(row))
  {
    RemoveKeyCount(rows, Key(row), k);
    CountKeyAppend(RemoveKey(rows, Key(row)), row, k);
    RemoveKeyMembers(rows, Key(row));
  }

  /** Upserting the same row twice gives the same table as upserting it once. */
  lemma UpsertIdempotent(rows: seq<Row>, row: Row)
    ensures Upsert(Upsert(rows, row), row) == Upsert(rows, row)
  {
    var kept := RemoveKey(rows, Key(row));
    assert (kept + [row])[..|kept + [row]| - 1] == kept;
    RemoveKeyMembers(rows, Key(row));
    forall j | 0 <= j < |kept| ensures Key(kept[j]) != Key(row) {
      assert kept[j] in kept;
    }
    RemoveKeyAbsent(kept, Key(row));
  }
}
