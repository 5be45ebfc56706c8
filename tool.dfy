/**
 * The annotator itself (label_dendritic_spines.py, class SpineAnnotationTool):
 * the loaded stack, the active spine, the annotation store with its colours and
 * measurement table, the view (zoom, pan, frame) and the box being drawn.
 * Widgets, rendering and file dialogs are not modelled; pointer positions,
 * directory listings and file contents arrive as parameters.
 */
module Tool {
  import opened Wrappers
  import opened Geometry
  import opened Measurements
  import opened Annotations
  import opened SpineEntry
  import opened View
  import opened Codec

  /** The rubber-band rectangle drawn while dragging, in canvas coordinates. */
  datatype Preview = Preview(x1: real, y1: real, x2: real, y2: real, color: string)

  /** How load_annotations ended. */
  datatype LoadOutcome =
    | Loaded        // store restored and table rebuilt
    | PathMismatch  // the file was made for other images (the source just returns; this value is the model's)
    | BadFrameKey   // a frame key is not an index: int() raises before anything is assigned

  class SpineAnnotationTool {
    /** The size of each loaded frame (self.images, of which only the sizes are used here). */
    var imageSizes: seq<ImageSize>
    var imagePaths: seq<string>
    var currentImageIdx: nat
    var currentSpineName: string
    var spineAnnotations: Store
    var spineColors: map<string, string>
    var colorIndex: int
    /** measurements_df, one row per entry. */
    var measurements: seq<Row>
    var zoomFactor: real
    var panX: int
    var panY: int
    var drawing: bool
    var startX: int
    var startY: int
    /** math.sqrt; fixed at construction to an exact square root (IsSqrt). */
    const sqrt: real -> real

    ghost predicate Valid()
      reads this`imagePaths, this`imageSizes, this`currentImageIdx, this`zoomFactor
    {
      && |imagePaths| == |imageSizes|
      && (currentImageIdx == 0 || currentImageIdx < |imageSizes|)
      && MinZoom <= zoomFactor <= MaxZoom
    }

    /** Some frames are loaded (`if not self.images: return`). */
    predicate HasImages()
      reads this`imageSizes
    {
      |imageSizes| > 0
    }

    /** The measurement table agrees with the annotation store. */
    ghost predicate InSync()
      reads this`spineAnnotations, this`measurements
    {
      Consistent(spineAnnotations, measurements, sqrt)
    }

    /** The initial state: nothing loaded, spine "spine_1", 100% zoom, no pan, not drawing. */
    constructor(sqrt: real -> real)
      requires IsSqrt(sqrt)
      ensures Valid() && InSync() && !HasImages()
      ensures imagePaths == [] && currentImageIdx == 0 && currentSpineName == "spine_1"
      ensures spineAnnotations == map[] && spineColors == map[] && colorIndex == 0 && measurements == []
      ensures zoomFactor == 1.0 && panX == 0 && panY == 0 && !drawing
      ensures this.sqrt == sqrt && IsSqrt(this.sqrt)
    {
      imageSizes := [];
      imagePaths := [];
      currentImageIdx := 0;
      currentSpineName := "spine_1";
      spineAnnotations := map[];
      spineColors := map[];
      colorIndex := 0;
      measurements := [];
      zoomFactor := 1.0;
      panX := 0;
      panY := 0;
      drawing := false;
      startX := 0;
      startY := 0;
      this.sqrt := sqrt;
    }

    /**
     * The state change of load_images once the folder has been listed and every
     * file read: the stack is replaced and the first frame becomes current.
     */
    method LoadImages(paths: seq<string>, sizes: seq<ImageSize>)
      requires Valid() && |paths| == |sizes|
      modifies this`imageSizes, this`imagePaths, this`currentImageIdx
      ensures Valid()
      ensures imagePaths == paths && imageSizes == sizes && currentImageIdx == 0
    {
      imageSizes := [];
      imagePaths := [];
      var k := 0;
      while k < |paths|
        invariant 0 <= k <= |paths|
        invariant imagePaths == paths[..k] && imageSizes == sizes[..k]
      {
        imageSizes := imageSizes + [sizes[k]];
        imagePaths := imagePaths + [paths[k]];
        k := k + 1;
      }
      currentImageIdx := 0;
    }

    /** Pointer down at canvas point (cx, cy): remember the pixel under it as the anchor. */
    method OnCanvasClick(cx: real, cy: real)
      requires Valid()
      modifies this`drawing, this`startX, this`startY
      ensures Valid()
      ensures !old(HasImages()) ==> unchanged(this)
      ensures old(HasImages()) ==>
        drawing && startX == ToImage(cx, panX, zoomFactor) && startY == ToImage(cy, panY, zoomFactor)
    {
      if !HasImages() {
        return;
      }
      drawing := true;
      startX := ToImage(cx, panX, zoomFactor);
      startY := ToImage(cy, panY, zoomFactor);
    }

    /**
     * Pointer moved to (cx, cy) while the button is held: the rectangle to draw
     * from the anchor to the pixel under the pointer, in the active spine's
     * colour (red for a spine without one); none unless a drag is under way.
     */
    method OnCanvasDrag(cx: real, cy: real) returns (p: Option<Preview>)
      requires Valid()
      ensures p.Some? <==> drawing && HasImages()
      ensures p.Some? ==> p.value.x1 == ToScreen(startX, panX, zoomFactor) && p.value.y1 == ToScreen(startY, panY, zoomFactor)
      ensures p.Some? ==> p.value.x2 == ToScreen(ToImage(cx, panX, zoomFactor), panX, zoomFactor)
      ensures p.Some? ==> p.value.y2 == ToScreen(ToImage(cy, panY, zoomFactor), panY, zoomFactor)
      ensures p.Some? ==> ToImage(p.value.x1, panX, zoomFactor) == startX
      ensures p.Some? ==> ToImage(p.value.y1, panY, zoomFactor) == startY
      ensures p.Some? ==> ToImage(p.value.x2, panX, zoomFactor) == ToImage(cx, panX, zoomFactor)
      ensures p.Some? ==> ToImage(p.value.y2, panY, zoomFactor) == ToImage(cy, panY, zoomFactor)
      ensures p.Some? && panX as real <= cx ==> p.value.x2 <= cx < p.value.x2 + zoomFactor
      ensures p.Some? && panY as real <= cy ==> p.value.y2 <= cy < p.value.y2 + zoomFactor
      ensures p.Some? ==> p.value.color == (if currentSpineName in spineColors then spineColors[currentSpineName] else "red")
    {
      if !drawing || !HasImages() {
        return None;
      }
      var ix, iy := ToImage(cx, panX, zoomFactor), ToImage(cy, panY, zoomFactor);
      var x1 := ToScreen(startX, panX, zoomFactor);
      var y1 := ToScreen(startY, panY, zoomFactor);
      var x2 := ToScreen(ix, panX, zoomFactor);
      var y2 := ToScreen(iy, panY, zoomFactor);
      var color := if currentSpineName in spineColors then spineColors[currentSpineName] else "red";
      ToImageOfToScreen(startX, panX, zoomFactor);
      ToImageOfToScreen(startY, panY, zoomFactor);
      PointerPixel(cx, panX, zoomFactor);
      PointerPixel(cy, panY, zoomFactor);
      return Some(Preview(x1, y1, x2, y2, color));
    }

    /** The annotation store, colours, colour counter and measurement table together. */
    ghost function Records(): Tables
      reads this`spineAnnotations, this`spineColors, this`colorIndex, this`measurements
    {
      Tables(spineAnnotations, spineColors, colorIndex, measurements)
    }

    /**
     * Pointer released at (cx, cy): commit the box from the anchor to the pixel
     * under the pointer and end the drag; nothing happens unless a drag is under
     * way.
     */
    method OnCanvasRelease(cx: real, cy: real)
      requires Valid()
      modifies this`spineAnnotations, this`spineColors, this`colorIndex, this`measurements, this`drawing
      ensures Valid()
      ensures !(old(drawing) && HasImages()) ==> unchanged(this)
      ensures old(drawing) && HasImages() ==>
        && !drawing
        && Records() == Commit(old(Records()), currentSpineName, currentImageIdx,
             NormalizeBox(startX, startY, ToImage(cx, panX, zoomFactor), ToImage(cy, panY, zoomFactor),
                          imageSizes[currentImageIdx]), sqrt)
      ensures old(InSync()) ==> InSync()
    {
      if drawing && HasImages() {
        EndDrag(ToImage(cx, panX, zoomFactor), ToImage(cy, panY, zoomFactor));
      }
    }

    /** The release of a drag under way at image pixel (ix, iy): stop drawing and commit the box. */
    method EndDrag(ix: int, iy: int)
      requires Valid() && drawing && HasImages()
      modifies this`spineAnnotations, this`spineColors, this`colorIndex, this`measurements, this`drawing
      ensures Valid() && !drawing
      ensures Records() == Commit(old(Records()), currentSpineName, currentImageIdx,
        NormalizeBox(startX, startY, ix, iy, imageSizes[currentImageIdx]), sqrt)
      ensures old(InSync()) ==> InSync()
    {
      drawing := false;
      SaveAnnotation(startX, startY, ix, iy);
    }

    /**
     * Commit the drag from (x1, y1) to (x2, y2) on the current frame: order and
     * clamp the corners, colour the spine if it is new, store the box and
     * replace the spine's row for this frame by a fresh one.
     */
    method SaveAnnotation(x1: int, y1: int, x2: int, y2: int)
      requires Valid() && HasImages()
      modifies this`spineAnnotations, this`spineColors, this`colorIndex, this`measurements
      ensures Valid()
      ensures Records() == Commit(old(Records()), currentSpineName, currentImageIdx,
        NormalizeBox(x1, y1, x2, y2, imageSizes[currentImageIdx]), sqrt)
      ensures old(InSync()) ==> InSync()
    {
      var b := NormalizeBox(x1, y1, x2, y2, imageSizes[currentImageIdx]);
      ghost var ann0, rows0 := spineAnnotations, measurements;
      StoreBox(b);
      var row := Measure(currentSpineName, currentImageIdx, b, sqrt);
      UpsertRow(row);
      if Consistent(ann0, rows0, sqrt) {
        CommitKeepsConsistent(ann0, rows0, currentSpineName, currentImageIdx, b, sqrt);
      }
    }

    /**
     * The store half of a commit: give a spine new to both the store and the
     * colour map the next palette colour, then store b as its box on the
     * current frame.
     */
    method StoreBox(b: Box)
      modifies this`spineAnnotations, this`spineColors, this`colorIndex
      ensures spineAnnotations == PutBox(old(spineAnnotations), currentSpineName, currentImageIdx, b)
      ensures (spineColors, colorIndex) ==
        AssignColor(old(spineAnnotations), old(spineColors), old(colorIndex), currentSpineName)
    {
      ghost var ann0 := spineAnnotations;
      var name := currentSpineName;
      if name !in spineAnnotations {
        spineAnnotations := spineAnnotations[name := map[]];
        if name !in spineColors {
          spineColors := spineColors[name := Palette[colorIndex % |Palette|]];
          colorIndex := colorIndex + 1;
        }
      }
      spineAnnotations := spineAnnotations[name := spineAnnotations[name][currentImageIdx := b]];
      PutBoxInTwoSteps(ann0, name, currentImageIdx, b);
    }

    /** The table half of a commit: mask out the rows under the new row's key and append it. */
    method UpsertRow(row: Row)
      modifies this`measurements
      ensures measurements == Upsert(old(measurements), row)
    {
      measurements := RemoveKey(measurements, Key(row)) + [row];
    }

    /**
     * change_spine_name: the entry, stripped of surrounding whitespace, becomes
     * the active spine unless it is blank.
     */
    method ChangeSpineName(entry: string)
      modifies this`currentSpineName
      ensures var n := Strip(entry);
        currentSpineName == if n != [] && n != old(currentSpineName) then n else old(currentSpineName)
    {
      var n := Strip(entry);
      if n != [] && n != currentSpineName {
        currentSpineName := n;
      }
    }

    /** on_spine_selected: a non-empty choice from the spine list becomes the active spine. */
    method SelectSpine(selected: string)
      modifies this`currentSpineName
      ensures currentSpineName == if selected != [] then selected else old(currentSpineName)
    {
      if selected != [] {
        currentSpineName := selected;
      }
    }

    /**
     * new_spine once the name prompt has been answered: a non-empty answer,
     * taken as typed, becomes the active spine; an empty or cancelled answer
     * (None) changes nothing.
     */
    method NewSpine(answer: Option<string>)
      modifies this`currentSpineName
      ensures answer.Some? && answer.value != [] ==> currentSpineName == answer.value
      ensures !(answer.Some? && answer.value != []) ==> currentSpineName == old(currentSpineName)
    {
      if answer.Some? && answer.value != [] {
        currentSpineName := answer.value;
      }
    }

    /**
     * Delete the active spine's box on the current frame together with its
     * row; nothing happens when there is no such box.
     */
    method DeleteCurrentBox()
      requires Valid()
      modifies this`spineAnnotations, this`measurements
      ensures Valid()
      ensures spineAnnotations == RemoveBox(old(spineAnnotations), currentSpineName, currentImageIdx)
      ensures measurements == if HasBox(old(spineAnnotations), currentSpineName, currentImageIdx)
        then RemoveKey(old(measurements), (currentSpineName, currentImageIdx)) else old(measurements)
      ensures old(InSync()) ==> InSync()
    {
      var name := currentSpineName;
      if name in spineAnnotations && currentImageIdx in spineAnnotations[name] {
        ghost var ann0, rows0 := spineAnnotations, measurements;
        spineAnnotations := spineAnnotations[name := spineAnnotations[name] - {currentImageIdx}];
        measurements := RemoveKey(measurements, (name, currentImageIdx));
        if Consistent(ann0, rows0, sqrt) {
          DeleteKeepsConsistent(ann0, rows0, name, currentImageIdx, sqrt);
        }
      }
    }

    /** Step back one frame, keeping zoom and pan. */
    method PrevImage()
      requires Valid()
      modifies this`currentImageIdx
      ensures Valid()
      ensures currentImageIdx == PrevIndex(old(currentImageIdx), |imageSizes|)
    {
      if HasImages() && currentImageIdx > 0 {
        currentImageIdx := currentImageIdx - 1;
      }
    }

    /** Step forward one frame, keeping zoom and pan. */
    method NextImage()
      requires Valid()
      modifies this`currentImageIdx
      ensures Valid()
      ensures currentImageIdx == NextIndex(old(currentImageIdx), |imageSizes|)
    {
      if HasImages() && currentImageIdx < |imageSizes| - 1 {
        currentImageIdx := currentImageIdx + 1;
      }
    }

    /** Zoom in by 20%, at most to 10x. */
    method ZoomIn()
      requires Valid()
      modifies this`zoomFactor
      ensures Valid()
      ensures zoomFactor == ZoomedIn(old(zoomFactor))
    {
      zoomFactor := ZoomedIn(zoomFactor);
    }

    /** Zoom out by a factor 1.2, at least to 0.1x. */
    method ZoomOut()
      requires Valid()
      modifies this`zoomFactor
      ensures Valid()
      ensures zoomFactor == ZoomedOut(old(zoomFactor))
    {
      zoomFactor := ZoomedOut(zoomFactor);
    }

    /** Back to 100% zoom and no pan. */
    method ResetView()
      requires Valid()
      modifies this`zoomFactor, this`panX, this`panY
      ensures Valid()
      ensures zoomFactor == 1.0 && panX == 0 && panY == 0
    {
      zoomFactor := 1.0;
      panX := 0;
      panY := 0;
    }

    /**
     * The contents save_annotations writes: the store with string frame keys,
     * the colours, the colour counter and the image paths. Reading the store
     * back gives exactly the store that was saved.
     */
    method SaveAnnotations() returns (snap: Snapshot)
      ensures snap.spineColors == spineColors && snap.colorIndex == colorIndex && snap.imagePaths == imagePaths
      ensures snap.spineAnnotations.Keys == spineAnnotations.Keys
      ensures DecodeAnnotations(snap.spineAnnotations) == Some(spineAnnotations)
    {
      snap := Snapshot(EncodeAnnotations(spineAnnotations), spineColors, colorIndex, imagePaths);
      DecodeEncodeAnnotations(spineAnnotations);
    }

    /**
     * load_annotations on the contents of a file. The store, colours and counter
     * are replaced first; if the file names a non-empty list of images other
     * than the loaded one the method stops there, otherwise the table is
     * rebuilt from the restored store.
     */
    method LoadAnnotations(snap: Snapshot) returns (outcome: LoadOutcome)
      requires Valid()
      modifies this`spineAnnotations, this`spineColors, this`colorIndex, this`measurements
      ensures Valid()
      ensures outcome == BadFrameKey <==> DecodeAnnotations(snap.spineAnnotations).None?
      ensures outcome == BadFrameKey ==> unchanged(this)
      ensures outcome != BadFrameKey ==>
        && spineAnnotations == DecodeAnnotations(snap.spineAnnotations).value
        && spineColors == snap.spineColors && colorIndex == snap.colorIndex
      ensures outcome == PathMismatch <==>
        outcome != BadFrameKey && snap.imagePaths != [] && snap.imagePaths != imagePaths
      ensures outcome == PathMismatch ==> measurements == old(measurements)
      ensures outcome == Loaded ==> InSync()
    {
      var decoded := DecodeAnnotations(snap.spineAnnotations);
      if decoded.None? {
        return BadFrameKey;
      }
      spineAnnotations := decoded.value;
      spineColors := snap.spineColors;
      colorIndex := snap.colorIndex;
      if snap.imagePaths != [] && snap.imagePaths != imagePaths {
        return PathMismatch;
      }
      measurements := BuildMeasurements(spineAnnotations, sqrt);
      return Loaded;
    }
    /**
     * load_annotations corrected so that a file made for other images is
     * refused before anything is assigned: every outcome but
     * Loaded leaves the tool as it was, and the table always agrees with the
     * store afterwards if it did before.
     */
    method LoadAnnotationsAllOrNothing(snap: Snapshot) returns (outcome: LoadOutcome)
      requires Valid()
      modifies this`spineAnnotations, this`spineColors, this`colorIndex, this`measurements
      ensures Valid()
      ensures outcome == BadFrameKey <==> DecodeAnnotations(snap.spineAnnotations).None?
      ensures outcome == PathMismatch <==>
        outcome != BadFrameKey && snap.imagePaths != [] && snap.imagePaths != imagePaths
      ensures outcome != Loaded ==> unchanged(this)
      ensures outcome == Loaded ==>
        && spineAnnotations == DecodeAnnotations(snap.spineAnnotations).value
        && spineColors == snap.spineColors && colorIndex == snap.colorIndex
        && InSync()
      ensures old(InSync()) ==> InSync()
    {
      var decoded := DecodeAnnotations(snap.spineAnnotations);
      if decoded.None? {
        return BadFrameKey;
      }
      if snap.imagePaths != [] && snap.imagePaths != imagePaths {
        return PathMismatch;
      }
      spineAnnotations := decoded.value;
      spineColors := snap.spineColors;
      colorIndex := snap.colorIndex;
      measurements := BuildMeasurements(spineAnnotations, sqrt);
      return Loaded;
    }

    /**
     * Saving the annotations and loading the result back, against the same
     * images, restores the same store, colours and counter and a table that
     * agrees with the store.
     */
    method SaveThenLoad() returns (outcome: LoadOutcome)
      requires Valid()
      modifies this`spineAnnotations, this`spineColors, this`colorIndex, this`measurements
      ensures outcome == Loaded
      ensures spineAnnotations == old(spineAnnotations)
      ensures spineColors == old(spineColors) && colorIndex == old(colorIndex)
      ensures InSync()
    {
      var snap := SaveAnnotations();
      outcome := LoadAnnotations(snap);
    }
  }

  /** A file holding one box for "spine_1" on frame 0, made for the image "b.tif". */
  function OtherStackSnapshot(): Snapshot
  {
    Snapshot(map["spine_1" := map["0" := Box(10, 10, 50, 50)]], map["spine_1" := "red"], 1, ["b.tif"])
  }

  /**
   * load_annotations as written, on a fresh tool showing "a.tif": the load of
   * the file for "b.tif" ends in the model's PathMismatch outcome (the source
   * just returns), yet its box is now in the store while the table stays
   * empty, so table and store disagree.
   */
  method MismatchLoadAsWritten(sqrt: real -> real) returns (tool: SpineAnnotationTool, outcome: LoadOutcome)
    requires IsSqrt(sqrt)
    ensures outcome == PathMismatch
    ensures HasBox(tool.spineAnnotations, "spine_1", 0) && tool.measurements == []
    ensures !tool.InSync()
  {
    tool := new SpineAnnotationTool(sqrt);
    tool.LoadImages(["a.tif"], [ImageSize(100, 100)]);
    var snap := OtherStackSnapshot();
    DecodeKeyOfIntToString(0);
    assert IntToString(0) == "0";
    outcome := tool.LoadAnnotations(snap);
    assert CountKey(tool.measurements, ("spine_1", 0)) == 0;
  }

  /** The same load refused before any assignment: the tool keeps its empty store and empty table. */
  method MismatchLoadAllOrNothing(sqrt: real -> real) returns (tool: SpineAnnotationTool, outcome: LoadOutcome)
    requires IsSqrt(sqrt)
    ensures outcome == PathMismatch
    ensures tool.spineAnnotations == map[] && tool.measurements == []
    ensures tool.InSync()
  {
    tool := new SpineAnnotationTool(sqrt);
    tool.LoadImages(["a.tif"], [ImageSize(100, 100)]);
    var snap := OtherStackSnapshot();
    DecodeKeyOfIntToString(0);
    assert IntToString(0) == "0";
    outcome := tool.LoadAnnotationsAllOrNothing(snap);
  }
}
