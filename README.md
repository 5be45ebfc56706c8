# Dendritic spine annotation: a verified model

This project models the core of a dendritic spine annotation tool in Dafny. The tool loads a stack of time-lapse microscopy frames. The user drags boxes around named spines on each frame. Each box is stored under (spine name, frame index), and a measurement table holds the box's diagonal in pixels and microns and whether the spine counts as stable. The user can also zoom and step between frames, and save or load the annotations. A separate routine computes each spine's motility from a table of timed length measurements: the summed absolute length changes divided by the time span.

The model is built from these modules:

- `Geometry` covers the conversion between canvas and image pixels. Python's `int()` truncates toward zero, and the model says so explicitly. It also puts a committed box's corners in order and clamps them to the frame.
- `Measurements` holds the measurement table as a sequence of rows. Masking out a key keeps the other rows in order, and an upsert appends the new row after them. Lengths are stated over an exact square root.
- `Annotations` holds the two-level annotation store, the colour palette and the commit step. It also defines the agreement between the store and the table, and contains the loop that rebuilds the table.
- `SpineEntry` is `str.strip` on the typed spine name.
- `View` covers the zoom clamps and the frame index.
- `Codec` covers the annotation file's frame keys, written as `str(k)` and read back with `int(k)`.
- `Tool` is the `SpineAnnotationTool` class itself, with its fields updated in place by its methods.
- `Motility` is `calculate_motility`. Its loops are proved against recursive specification functions.

`measurements_df` is named `measurements` in the model. The square root, directory listings, image sizes, pointer positions and file contents all arrive as parameters.

## Model

| member | source | states |
|---|---|---|
| Geometry.Trunc | label_dendritic_spines.py:212-213 | `int()` of a float truncates toward zero: a non-negative x lies in [r, r+1) and a negative x in (r-1, r] |
| Geometry.ToImageOfToScreen | label_dendritic_spines.py:233-236 | a pixel drawn at `pan + i*zoom` reads back as pixel i through `int((c - pan)/zoom)`, for every positive zoom and any pan |
| Geometry.ToImage | label_dendritic_spines.py:212-213 | at or past the pan offset, a canvas point falls in the on-screen square [pan + r*zoom, pan + (r+1)*zoom) of its pixel r >= 0; before it, truncation toward zero puts it in (pan + (r-1)*zoom, pan + r*zoom] with r <= 0, so pixel 0 spans one zoom step on both sides |
| Geometry.ToScreen | label_dendritic_spines.py:233-236 | for a positive zoom, pixel i is drawn at or past the pan offset exactly when i >= 0 |
| Geometry.PointerPixel | label_dendritic_spines.py:227-236 | the pointer's pixel, drawn back on the canvas, maps to the same pixel and lies at most one zoom step before the pointer |
| Geometry.NormalizeBox | label_dendritic_spines.py:260-268 | the committed box has x1 <= x2 and y1 <= y2 and lies in [0,w]x[0,h]; each coordinate is the ordered corner clamped to the frame: 0 below it, the width (height) beyond it, the corner itself on it |
| Geometry.NormalizeBoxDirectionFree | label_dendritic_spines.py:260-268 | the committed box is the same whichever corner the drag starts from |
| Geometry.NormalizeBoxIdempotent | label_dendritic_spines.py:260-268 | normalising a committed box again leaves it unchanged |
| Measurements.DiagonalSq | label_dendritic_spines.py:281 | the squared diagonal is never negative |
| Measurements.Measure | label_dendritic_spines.py:281-292 | the derived row carries the key (spine, frame) it is upserted under |
| Measurements.MeasureFacts | label_dendritic_spines.py:281-283 | length_pixels is non-negative and its square is (x2-x1)^2 + (y2-y1)^2; length_microns is length_pixels / 7.75; stable holds exactly when the squared diagonal is below 50^2 |
| Measurements.ScenarioUnstableBox | label_dendritic_spines.py:281-283 | box (10,10,50,50) measures about 56.57 px and 7.30 µm and is not stable |
| Measurements.ScenarioStableBox | label_dendritic_spines.py:281-283 | box (15,15,50,50) measures about 49.50 px and is stable |
| Measurements.CountKeyAbsent | label_dendritic_spines.py:295-297 | a table with no row under a key counts zero rows for it |
| Measurements.CountKeyAppend | label_dendritic_spines.py:300 | appending a row adds one to its own key's count and leaves every other count alone |
| Measurements.RemoveKey | label_dendritic_spines.py:295-297 | the mask `df[~mask]` never adds rows; RemoveKeyMembers and RemoveKeyCount state which rows it keeps |
| Measurements.RemoveKeyMembers | label_dendritic_spines.py:295-297 | the mask keeps exactly the rows under other keys |
| Measurements.RemoveKeyCount | label_dendritic_spines.py:295-297 | after masking, no row remains under the key and every other key keeps its count |
| Measurements.RemoveKeyAbsent | label_dendritic_spines.py:295-297 | masking a key that no row carries leaves the table unchanged |
| Measurements.Upsert | label_dendritic_spines.py:294-300 | the new row is the last row of the table (the concat appends it), and the table grows by at most one row |
| Measurements.UpsertCount | label_dendritic_spines.py:294-300 | after an upsert, exactly one row carries the new key and every other key keeps its count; the rows present are the new row and the old rows under other keys |
| Measurements.UpsertIdempotent | label_dendritic_spines.py:294-300 | upserting the same row twice gives the same table as upserting it once |
| Annotations.PutBox | label_dendritic_spines.py:271-278 | the box is stored under (spine, frame), the spine set gains at most that spine, and every other (spine, frame) entry keeps its presence and its box |
| Annotations.PutBoxInTwoSteps | label_dendritic_spines.py:271-278 | creating an empty entry for a new spine and then storing into it equals PutBox |
| Annotations.RemoveBox | label_dendritic_spines.py:346-347 | the (spine, frame) box is gone, the spine set is unchanged, and every other entry keeps its presence and its box |
| Annotations.AssignColor | label_dendritic_spines.py:271-276 | a spine absent from both store and colour map gets `Palette[counter % 8]` and the counter rises by exactly one; otherwise the counter is untouched and no existing colour changes |
| Annotations.PaletteCycle | label_dendritic_spines.py:275 | eight spines coloured one after another all get different colours |
| Annotations.Commit | label_dendritic_spines.py:271-300 | after a commit the box is stored under (spine, frame) and its freshly derived row is in the table |
| Annotations.CommitIdempotent | label_dendritic_spines.py:271-300 | committing the same box twice gives the same store, colours, counter and table as committing it once |
| Annotations.CommitKeepsConsistent | label_dendritic_spines.py:271-300 | if every row is derived from a stored box and every box has exactly one row, this still holds after a commit |
| Annotations.DeleteKeepsConsistent | label_dendritic_spines.py:345-352 | deleting a box together with its row keeps the table in agreement with the store |
| Annotations.CoversAppend | label_dendritic_spines.py:440-452 | appending the row of a box not yet covered keeps one derived row per covered box |
| Annotations.CoversAll | label_dendritic_spines.py:439-452 | a table covering exactly the stored boxes agrees with the store |
| Annotations.BuildMeasurements | label_dendritic_spines.py:439-452 | the rebuilt table has exactly one row per stored box, each derived with the same length and stable formula, and no other row |
| SpineEntry.StripLeft | label_dendritic_spines.py:307 | the result is a suffix of the input; everything dropped is whitespace; the result does not start with whitespace |
| SpineEntry.StripRight | label_dendritic_spines.py:307 | the result is a prefix of the input; everything dropped is whitespace; the result does not end with whitespace |
| SpineEntry.Strip | label_dendritic_spines.py:307 | the stripped name is a slice s[i..j] of the entry with only whitespace outside it, it has no surrounding whitespace, and it is empty exactly when the entry was all whitespace |
| SpineEntry.StripKeepsTrimmed | label_dendritic_spines.py:307 | a name without surrounding whitespace is kept as typed |
| SpineEntry.StripIdempotent | label_dendritic_spines.py:307 | stripping twice equals stripping once |
| View.ZoomedIn | label_dendritic_spines.py:370-372 | zooming in gives min(zoom * 1.2, 10): never above 10x nor above 1.2 times the old zoom, and equal to one of them; at least 0.1x and never a decrease from a zoom within range |
| View.ZoomedOut | label_dendritic_spines.py:375-377 | zooming out gives max(zoom / 1.2, 0.1): never below 0.1x nor below the old zoom / 1.2, and equal to one of them; at most 10x and never an increase from a zoom within range |
| View.ZoomOutUndoesZoomIn | label_dendritic_spines.py:370-377 | zooming out undoes a zoom-in that did not hit the 10x clamp |
| View.ZoomInUndoesZoomOut | label_dendritic_spines.py:370-377 | zooming in undoes a zoom-out that did not hit the 0.1x clamp |
| View.PrevIndex | label_dendritic_spines.py:358-361 | the index moves back by exactly one frame, or stays put exactly on the first frame or with no frames; it stays inside the stack |
| View.NextIndex | label_dendritic_spines.py:364-367 | the index moves on by exactly one frame, or stays put exactly on the last frame or with no frames; it stays inside the stack |
| View.PrevAfterNext | label_dendritic_spines.py:358-367 | stepping forward then back returns to the same frame, unless already on the last one |
| View.NextAfterPrev | label_dendritic_spines.py:358-367 | stepping back then forward returns to the same frame, unless already on the first one |
| Codec.DigitChar | label_dendritic_spines.py:409 | each decimal digit is written as a character '0'..'9' |
| Codec.NatToString | label_dendritic_spines.py:409 | `str(n)` is a non-empty string of digits with no leading zero |
| Codec.IntToString | label_dendritic_spines.py:409 | `str(k)` is never empty |
| Codec.ParseInt | label_dendritic_spines.py:429 | `int(s)` succeeds only on a non-empty string |
| Codec.DigitsValueOfNatToString | label_dendritic_spines.py:409 | reading back the digits of `str(n)` gives n |
| Codec.ParseIntOfIntToString | label_dendritic_spines.py:409-429 | `int(str(k)) == k` for every integer frame index |
| Codec.IntToStringInjective | label_dendritic_spines.py:409 | different frame indices are written as different keys |
| Codec.DecodeKey | label_dendritic_spines.py:429 | a key that decodes is exactly `str` of the index it decodes to |
| Codec.DecodeKeyOfIntToString | label_dendritic_spines.py:409-429 | every key written on save decodes to the index it came from |
| Codec.DecodeKeyInjective | label_dendritic_spines.py:429 | different keys never decode to the same frame index |
| Codec.EncodeFrames | label_dendritic_spines.py:409 | every frame is saved under `str` of its index with its box, and no other key is written |
| Codec.DecodeFrames | label_dendritic_spines.py:429 | decoding succeeds exactly when every key is an index; each box is then found under its key's index, and no other index appears |
| Codec.DecodeEncodeFrames | label_dendritic_spines.py:409-429 | decoding the keys written on save gives back exactly the saved frames |
| Codec.EncodeDecodeFrames | label_dendritic_spines.py:409-429 | frames that decode are written back to exactly the keys they came from |
| Codec.EncodeAnnotations | label_dendritic_spines.py:409-410 | the file entry has the same spines, each holding its frames with string keys |
| Codec.DecodeAnnotations | label_dendritic_spines.py:429-430 | loading succeeds exactly when every spine's keys decode; it yields the same spines, each with its decoded frames |
| Codec.DecodeEncodeAnnotations | label_dendritic_spines.py:408-430 | saving then loading the store gives back the same store |
| Codec.EncodeDecodeAnnotations | label_dendritic_spines.py:408-430 | a file entry that loads is saved back unchanged |
| Tool.SpineAnnotationTool.constructor | label_dendritic_spines.py:19-47 | initial state: no images, spine "spine_1", empty store, colours and table, counter 0, zoom 1.0, no pan, not drawing |
| Tool.SpineAnnotationTool.LoadImages | label_dendritic_spines.py:147-167 | the stack is replaced by the listed paths and their sizes, and the first frame becomes current |
| Tool.SpineAnnotationTool.OnCanvasClick | label_dendritic_spines.py:205-217 | with images loaded, the drag starts and the anchor is `int((c - pan)/zoom)` on each axis; otherwise nothing changes |
| Tool.SpineAnnotationTool.OnCanvasDrag | label_dendritic_spines.py:220-239 | a preview exists exactly while drawing with images; its corners are drawn at `pan + start*zoom` and at `pan + pixel*zoom` for the pointer's pixel, so they map back to the anchor and to that pixel; the pointer lies within one zoom step of the drawn corner; it takes the spine's colour, or red if the spine has none |
| Tool.SpineAnnotationTool.OnCanvasRelease | label_dendritic_spines.py:242-255 | without a drag under way or without images nothing changes; otherwise the box from the anchor to the release pixel is committed and drawing stops; table/store agreement is preserved |
| Tool.SpineAnnotationTool.EndDrag | label_dendritic_spines.py:249-254 | the release of a drag under way commits the anchor-to-pixel box and clears `drawing` |
| Tool.SpineAnnotationTool.SaveAnnotation | label_dendritic_spines.py:258-300 | store, colours, counter and table become `Commit` of their old values with the normalised box; table/store agreement is preserved |
| Tool.SpineAnnotationTool.StoreBox | label_dendritic_spines.py:271-278 | the nested `if` of save_annotation gives PutBox on the store and AssignColor on colours and counter |
| Tool.SpineAnnotationTool.UpsertRow | label_dendritic_spines.py:294-300 | the table becomes the upsert of the new row |
| Tool.SpineAnnotationTool.ChangeSpineName | label_dendritic_spines.py:306-310 | the stripped entry becomes the active spine unless it is blank |
| Tool.SpineAnnotationTool.SelectSpine | label_dendritic_spines.py:313-317 | a non-empty choice becomes the active spine; an empty one changes nothing |
| Tool.SpineAnnotationTool.NewSpine | label_dendritic_spines.py:337-341 | a non-empty answer, unstripped, becomes the active spine; an empty or cancelled answer changes nothing |
| Tool.SpineAnnotationTool.DeleteCurrentBox | label_dendritic_spines.py:345-352 | the box and its rows go together, and nothing changes when there is no box; table/store agreement is preserved |
| Tool.SpineAnnotationTool.PrevImage | label_dendritic_spines.py:358-361 | the frame index becomes PrevIndex and stays inside the stack |
| Tool.SpineAnnotationTool.NextImage | label_dendritic_spines.py:364-367 | the frame index becomes NextIndex and stays inside the stack |
| Tool.SpineAnnotationTool.ZoomIn | label_dendritic_spines.py:370-372 | zoom becomes ZoomedIn and stays within [0.1, 10] |
| Tool.SpineAnnotationTool.ZoomOut | label_dendritic_spines.py:375-377 | zoom becomes ZoomedOut and stays within [0.1, 10] |
| Tool.SpineAnnotationTool.ResetView | label_dendritic_spines.py:380-384 | zoom 1.0 and pan (0, 0) |
| Tool.SpineAnnotationTool.SaveAnnotations | label_dendritic_spines.py:399-414 | the file holds the colours, counter and paths as they are and the store with string keys; reading that store back gives exactly the saved store |
| Tool.SpineAnnotationTool.LoadAnnotations | label_dendritic_spines.py:419-452 | a bad frame key changes nothing. Otherwise store, colours and counter are replaced. A non-empty path list other than the loaded one then stops with the table untouched (the source returns silently; the `PathMismatch` outcome exists only in the model). Otherwise the table is rebuilt to agree with the store |
| Tool.SpineAnnotationTool.LoadAnnotationsAllOrNothing | label_dendritic_spines.py:419-452 | corrected load: a bad key or a mismatched path list changes nothing, and a successful load restores the file's store, colours and counter with a table that agrees with the store |
| Tool.SpineAnnotationTool.SaveThenLoad | label_dendritic_spines.py:399-452 | saving then loading with the load as written, against the same images, restores the same store, colours and counter, with a table that agrees with the store |
| Tool.MismatchLoadAsWritten | label_dendritic_spines.py:429-437 | loading a file made for other images stores its box and then returns silently without a row for it (the model's `PathMismatch` outcome marks the early return; the source reports nothing) |
| Tool.MismatchLoadAllOrNothing | label_dendritic_spines.py:429-437 | with the corrected load, the same file leaves the store and table empty and in agreement |
| Motility.Names | spine_motility.py:13 | the spine name column, row for row |
| Motility.Distinct | spine_motility.py:13 | `unique()` holds no name twice and holds exactly the names of the column |
| Motility.FirstIndex | spine_motility.py:13 | the position of a name's first occurrence |
| Motility.DistinctInFirstAppearanceOrder | spine_motility.py:13 | `unique()` lists the names in order of first appearance |
| Motility.SamplesOf | spine_motility.py:19 | the selection holds exactly the rows of that spine, each as many times as in the table |
| Motility.Insert | spine_motility.py:20 | inserting into a time-sorted sequence keeps it sorted and adds exactly one occurrence of the sample |
| Motility.SortByTime | spine_motility.py:20 | the result is ordered by time and is a permutation of the input (same multiset) |
| Motility.Lengths | spine_motility.py:22 | the length column of the sorted rows |
| Motility.Span | spine_motility.py:25 | T, from the first to the last sorted sample, is never negative |
| Motility.Rate | spine_motility.py:36 | a rate exists exactly when T is not zero, and rate * T gives back the total |
| Motility.SpineMotility | spine_motility.py:25-36 | a spine's motility exists exactly when T is not zero, and motility * T is the sum of its absolute length steps |
| Motility.SumAbsDiffs | spine_motility.py:28-33 | the summed absolute steps are never negative |
| Motility.Motility | spine_motility.py:13-43 | one result per distinct spine name, in the order of `unique()` |
| Motility.MotilityOfName | spine_motility.py:18-41 | each result carries the spine name it was computed for |
| Motility.SingleSampleHasNone | spine_motility.py:25-36 | a spine seen at one time point has T = 0 and no motility |
| Motility.MotilityNonNegative | spine_motility.py:25-36 | over time-sorted samples, motility is never negative |
| Motility.ConstantLengthsSumZero | spine_motility.py:28-33 | with all lengths equal, the summed steps are zero |
| Motility.ConstantLengthsZeroMotility | spine_motility.py:25-36 | with all lengths equal and a non-zero time span, motility is zero |
| Motility.SumAtLeastNetChange | spine_motility.py:28-33 | the summed steps are at least the net change from first to last length |
| Motility.MotilityBoundsNetChange | spine_motility.py:25-36 | motility * T >= the absolute net length change between the first and last time point |
| Motility.SumOfSteps | spine_motility.py:28-33 | the loop sums exactly the len-1 absolute differences of consecutive lengths |
| Motility.MotilityOfSpine | spine_motility.py:19-36 | the per-spine loop body computes that spine's entry of Motility |
| Motility.CalculateMotility | spine_motility.py:8-43 | the results are exactly Motility of the table |

## Left out

- Window, widgets, event binding, status text, message boxes and file dialogs (`setup_ui`, `update_display`, `update_spine_dropdown`, `run`, and the prompts of `save_data`, `save_annotations`, `load_annotations` and `new_spine`) are not modelled. They are user-interface plumbing, and their answers arrive as parameters.
- The canvas preview item (`current_box`) is not modelled, because it is rendering only.
- `save_data` is not modelled, because it writes the table to CSV.
- JSON reading and writing are not modelled; a `Snapshot` holds the decoded file contents. The model does not cover malformed files: missing entries, wrong value types, or boxes that are not four numbers. A missing `image_paths` entry is represented by the empty list, which is what `data.get('image_paths', [])` gives.
- Tool.SpineAnnotationTool.LoadImages: the directory listing, extension filter and file-name sort are not modelled. Neither are TIFF decoding, plane reduction and 8-bit rescaling. These are file I/O and array numerics in foreign libraries. The sorted paths and the frame sizes are parameters.
- Codec.DecodeKey accepts only the canonical decimal form that `str(k)` writes. Python's `int()` also accepts forms such as "07", "+7", " 7" and "1_0". Here a file with such a key is reported as a bad frame key.
- Floating point is not modelled. Coordinates, zoom, lengths and times are exact reals, and `math.sqrt` is a function parameter constrained to be an exact square root (`IsSqrt`). Rounding in `zoom * 1.2`, `/ 1.2` and the length formulas is therefore not modelled.
- SpineEntry.Strip treats only the ASCII whitespace characters as whitespace. Python's `str.strip` also removes the other Unicode whitespace characters.
- `start_x` and `start_y` are None before the first click. The model starts them at 0; they are only read while `drawing` is set, which a click sets together with them.
- Tool.SpineAnnotationTool.EndDrag clears `drawing` before the commit rather than after it. The commit does not read the flag, so the resulting state is the same.
- Exceptions are not modelled beyond `int(k)` on a bad key, which becomes the outcome `BadFrameKey`. In the source, the whole comprehension fails before any assignment, and the model matches that.
- Motility.SpineMotility: when T = 0, the model gives None instead of the `inf`/`nan` that numpy produces for `1/T`.
- Motility.SortByTime is a stable insertion sort. pandas' default `sort_values` is not guaranteed stable, so rows with equal times may end up in a different order; only the time order and the multiset of rows are stated.
- The motility input is a list of rows. The model does not cover reading the CSV, stripping column names, the printed diagnostics, or the `__main__` block with its directory scan, per-group statistics and plot.
- The pandas row index (`ignore_index=True`) is not modelled. The row order produced by the mask and the upsert is modelled: kept rows stay in order and the new row comes last.
- Annotations.BuildMeasurements: the order of the rebuilt rows is left open. The store is an unordered map, and the loop picks spines and frames in any order, while the source appends them in dictionary insertion order. Only which rows the table holds is stated.

## Findings

| source | as written | input that shows it | evidently intended | confidence | as-written member | corrected member |
|---|---|---|---|---|---|---|
| label_dendritic_spines.py:429-437 | store, colours and counter are replaced before the image-path check; on a mismatch the method returns without rebuilding the table | a fresh tool showing `a.tif` loads a file for `b.tif` with one box for `spine_1` on frame 0: the box is stored and the table stays empty | the `image_paths` entry exists to reject a file made for other images: the load is refused before anything is assigned | not executed; medium | Tool.MismatchLoadAsWritten | Tool.SpineAnnotationTool.LoadAnnotationsAllOrNothing |

`Tool.SpineAnnotationTool.LoadAnnotations` models the code as written. The save/load round trip `SaveThenLoad` holds for it, since a file saved by the tool itself always carries the tool's own paths. The corrected load differs only for a file made for other images.
