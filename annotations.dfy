/**
 * The annotation store: spine name -> frame index -> box, the spine colour
 * palette, and the agreement between the store and the measurement table
 * (label_dendritic_spines.py, save_annotation, delete_current_box and the
 * rebuild loop of load_annotations).
 */
module Annotations {
  import opened Geometry
  import opened Measurements

  /** spine_annotations: spine name -> frame index -> (x1, y1, x2, y2). */
  type Store = map<string, map<int, Box>>

  /** Spine s has a box on frame i. */
  predicate HasBox(ann: Store, s: string, i: int)
  {
    s in ann && i in ann[s]
  }

  /**
   * Store box b for spine s on frame i, creating the spine's entry when it is
   * new; nothing else in the store changes.
   */
  function PutBox(ann: Store, s: string, i: int, b: Box): (r: Store)
    ensures HasBox(r, s, i) && r[s][i] == b
    ensures r.Keys == ann.Keys + {s}
    ensures forall s', i' :: (s', i') != (s, i) ==> (HasBox(r, s', i') <==> HasBox(ann, s', i'))
    ensures forall s', i' :: (s', i') != (s, i) && HasBox(ann, s', i') ==> HasBox(r, s', i') && r[s'][i'] == ann[s'][i']
  {
    ann[s := (if s in ann then ann[s] else map[])[i := b]]
  }

  /**
   * Delete the box of spine s on frame i when there is one; the spine keeps
   * its (possibly now empty) entry and nothing else changes.
   */
  function RemoveBox(ann: Store, s: string, i: int): (r: Store)
    ensures !HasBox(r, s, i)
    ensures r.Keys == ann.Keys
    ensures forall s', i' :: (s', i') != (s, i) ==> (HasBox(r, s', i') <==> HasBox(ann, s', i'))
    ensures forall s', i' :: (s', i') != (s, i) && HasBox(ann, s', i') ==> HasBox(r, s', i') && r[s'][i'] == ann[s'][i']
  {
    if HasBox(ann, s, i) then ann[s := ann[s] - {i}] else ann
  }

  /**
   * Creating an empty entry for a new spine and then storing the box in it
   * is the same as PutBox.
   */
  lemma PutBoxInTwoSteps(ann: Store, s: string, i: int, b: Box)
    ensures var ann1 := if s in ann then ann else ann[s := map[]];
      ann1[s := ann1[s][i := b]] == PutBox(ann, s, i, b)
  {
    if s !in ann {
      var ann1 := ann[s := map[]];
      var lhs, rhs := ann1[s := ann1[s][i := b]], PutBox(ann, s, i, b);
      forall t | t in lhs ensures t in rhs && lhs[t] == rhs[t] { }
      forall t | t in rhs ensures t in lhs { }
      assert lhs.Keys == rhs.Keys;
    }
  }

  /** available_colors: the palette new spines draw from, in order. */
  const Palette: seq<string> := ["red", "blue", "green", "orange", "purple", "cyan", "yellow", "pink"]

  /**
   * The colour step of a commit for spine s: a spine absent from both the store
   * and the colour map gets Palette[colorIndex % 8] and the counter moves on by
   * one; otherwise colours and counter stay as they are.
   */
  function AssignColor(ann: Store, colors: map<string, string>, colorIndex: int, s: string)
    : (r: (map<string, string>, int))
    ensures forall t :: t in colors ==> t in r.0 && r.0[t] == colors[t]
    ensures r.0.Keys <= colors.Keys + {s}
    ensures r.1 == colorIndex + 1 <==> s !in ann && s !in colors
    ensures r.1 == colorIndex || r.1 == colorIndex + 1
    ensures s !in ann && s !in colors ==> s in r.0 && r.0[s] == Palette[colorIndex % |Palette|]
    ensures s in ann ==> r.0 == colors
  {
    if s !in ann && s !in colors then
      (colors[s := Palette[colorIndex % |Palette|]], colorIndex + 1)
    else
      (colors, colorIndex)
  }

  /** Eight spines coloured one after another all get different colours. */
  lemma PaletteCycle(i: int, j: int)
    requires i < j < i + |Palette|
    ensures Palette[i % |Palette|] != Palette[j % |Palette|]
  {
    assert |Palette| == 8;
  }

  /** The part of the tool's state that committing a box changes. */
  datatype Tables = Tables(ann: Store, colors: map<string, string>, counter: int, rows: seq<Row>)

  /**
   * save_annotation on these tables: box b is stored for spine s on frame i,
   * a spine new to both store and colour map takes the next palette colour,
   * and the rows under (s, i) give way to the box's freshly measured row.
   */
  function Commit(t: Tables, s: string, i: int, b: Box, sqrt: real -> real): (r: Tables)
    ensures HasBox(r.ann, s, i) && r.ann[s][i] == b
    ensures Measure(s, i, b, sqrt) in r.rows
  {
    var (colors, counter) := AssignColor(t.ann, t.colors, t.counter, s);
    Tables(PutBox(t.ann, s, i, b), colors, counter, Upsert(t.rows, Measure(s, i, b, sqrt)))
  }

  /** Committing the same box twice leaves the tables as committing it once: one box, one colour, one row. */
  lemma CommitIdempotent(t: Tables, s: string, i: int, b: Box, sqrt: real -> real)
    ensures Commit(Commit(t, s, i, b, sqrt), s, i, b, sqrt) == Commit(t, s, i, b, sqrt)
  {
    var once := Commit(t, s, i, b, sqrt);
    var twice := Commit(once, s, i, b, sqrt);
    UpsertIdempotent(t.rows, Measure(s, i, b, sqrt));
    assert once.ann[s][i := b] == once.ann[s];
    assert twice.ann == once.ann;
  }

  /** Row r is the row the tool derives from the box stored under its key. */
  predicate RowMatches(ann: Store, r: Row, sqrt: real -> real)
  {
    HasBox(ann, r.spineName, r.imageIdx)
    && r == Measure(r.spineName, r.imageIdx, ann[r.spineName][r.imageIdx], sqrt)
  }

  /**
   * The table agrees with the store: every row is derived from a stored box,
   * and every stored box has exactly one row.
   */
  ghost predicate Consistent(ann: Store, rows: seq<Row>, sqrt: real -> real)
  {
    && (forall r :: r in rows ==> RowMatches(ann, r, sqrt))
    && (forall s, i :: HasBox(ann, s, i) ==> CountKey(rows, (s, i)) == 1)
  }

  /** Committing a box and upserting its row keeps the table in agreement with the store. */
  lemma CommitKeepsConsistent(ann: Store, rows: seq<Row>, s: string, i: int, b: Box, sqrt: real -> real)
    requires Consistent(ann, rows, sqrt)
    ensures Consistent(PutBox(ann, s, i, b), Upsert(rows, Measure(s, i, b, sqrt)), sqrt)
  {
    var ann', row := PutBox(ann, s, i, b), Measure(s, i, b, sqrt);
    var rows' := Upsert(rows, row);
    UpsertCount(rows, row, (s, i));
    forall r | r in rows' ensures RowMatches(ann', r, sqrt) {
      if r != row {
        assert r in rows && Key(r) != (s, i);
        assert RowMatches(ann, r, sqrt);
      }
    }
    forall s', i' | HasBox(ann', s', i') ensures CountKey(rows', (s', i')) == 1 {
      UpsertCount(rows, row, (s', i'));
    }
  }

  /** Deleting a box and masking out its row keeps the table in agreement with the store. */
  lemma DeleteKeepsConsistent(ann: Store, rows: seq<Row>, s: string, i: int, sqrt: real -> real)
    requires Consistent(ann, rows, sqrt)
    ensures Consistent(RemoveBox(ann, s, i), RemoveKey(rows, (s, i)), sqrt)
  {
    var ann', rows' := RemoveBox(ann, s, i), RemoveKey(rows, (s, i));
    RemoveKeyMembers(rows, (s, i));
    forall r | r in rows' ensures RowMatches(ann', r, sqrt) {
      assert r in rows && Key(r) != (s, i);
      assert RowMatches(ann, r, sqrt);
    }
    forall s', i' | HasBox(ann', s', i') ensures CountKey(rows', (s', i')) == 1 {
      RemoveKeyCount(rows, (s, i), (s', i'));
    }
  }

  /**
   * The table holds exactly one derived row for every key in `done` and no
   * other row: the state the rebuild loop keeps.
   */
  ghost predicate Covers(ann: Store, rows: seq<Row>, sqrt: real -> real, done: set<(string, int)>)
  {
    && (forall r :: r in rows ==> RowMatches(ann, r, sqrt) && Key(r) in done)
    && (forall k :: k in done ==> CountKey(rows, k) == 1)
  }

  /** Appending the row of a box not yet covered covers it too. */
  lemma CoversAppend(ann: Store, rows: seq<Row>, sqrt: real -> real, done: set<(string, int)>, s: string, i: int)
    requires Covers(ann, rows, sqrt, done) && HasBox(ann, s, i) && (s, i) !in done
    ensures Covers(ann, rows + [Measure(s, i, ann[s][i], sqrt)], sqrt, done + {(s, i)})
  {
    var row := Measure(s, i, ann[s][i], sqrt);
    CountKeyAbsent(rows, (s, i));
    forall k | k in done + {(s, i)} ensures CountKey(rows + [row], k) == 1 {
      CountKeyAppend(rows, row, k);
    }
  }

  /** A table covering exactly the stored boxes agrees with the store. */
  lemma CoversAll(ann: Store, rows: seq<Row>, sqrt: real -> real, done: set<(string, int)>)
    requires Covers(ann, rows, sqrt, done)
    requires forall k :: k in done <==> HasBox(ann, k.0, k.1)
    ensures Consistent(ann, rows, sqrt)
  {
    forall s, i | HasBox(ann, s, i) ensures CountKey(rows, (s, i)) == 1 {
      assert (s, i) in done;
    }
  }

  /** A set of frame indices is empty or has an element. */
  lemma EmptyOrHasFrame(frames: set<int>)
    ensures frames == {} || exists i :: i in frames
  {
    if !exists i :: i in frames {
      assert frames == {};
    }
  }

  /**
   * The rebuild loop of load_annotations: start from an empty table and append
   * one derived row for every stored box, spine by spine and frame by frame.
   * The order in which the store is walked is left open.
   */
  method BuildMeasurements(ann: Store, sqrt: real -> real) returns (rows: seq<Row>)
    ensures Consistent(ann, rows, sqrt)
  {
    rows := [];
    ghost var done: set<(string, int)> := {};
    var spines := ann.Keys;
    while spines != {}
      invariant spines <= ann.Keys
      invariant Covers(ann, rows, sqrt, done)
      invariant forall k :: k in done <==> HasBox(ann, k.0, k.1) && k.0 !in spines
      decreases spines
    {
      var s :| s in spines;
      var frames := ann[s].Keys;
      while frames != {}
        invariant frames <= ann[s].Keys
        invariant Covers(ann, rows, sqrt, done)
        invariant forall k :: k in done <==>
          HasBox(ann, k.0, k.1) && (k.0 !in spines || (k.0 == s && k.1 !in frames))
        decreases frames
      {
        EmptyOrHasFrame(frames);
        var i :| i in frames;
        CoversAppend(ann, rows, sqrt, done, s, i);
        rows := rows + [Measure(s, i, ann[s][i], sqrt)];
        done := done + {(s, i)};
        frames := frames - {i};
      }
      spines := spines - {s};
    }
    CoversAll(ann, rows, sqrt, done);
  }
}
