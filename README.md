# Drone telemetry viewer: sample store, line codec and per-frame view logic

This project models the data core of a Unity drone telemetry viewer in Dafny, and proves properties of that model.

- **Sample store.** The `DataManager` component holds a list of `DroneUnit` samples and a cursor `current` that names the sample on display.
  - `Start` seeds an empty store.
  - The demo generator appends samples and advances the cursor.
  - `Clear` reseeds the store with one sample.
- **Line codec.** `DroneUnitSerializer.Parse` and `DroneUnitSerializer.Stringify` convert between a sample and a text line of sixteen comma-separated fields.
- **Per-frame logic.** `UIVisualizer.Update` reconciles the cursor with the row the user picked in the table. `ValidateUI` selects the cursor's row and refills the nine graph buffers. `HandleGraph` fills one buffer with a fixed-width window that ends at the cursor.

Layout:

- `wrappers.dfy` (`Wrappers`): `Option` and `Result`.
- `text.dfy` (`Text`): the string operations the codec uses.
  - `Trim` strips space, CR, LF and tab from both ends.
  - `RemoveChar` removes every occurrence of a character.
  - `Split` and `Join` work on a separator character.
- `drone_unit.dfy` (`Units`): the sample record, its constructor, and the codec.
  - Each field's number-to-text conversion is culture dependent. It is carried by a `NumberFormat` value: one partial parse function and one print function for each of `int`, `long`, `float` and `double`.
  - `Parse` and `Stringify` are parameterised by that value.
- `data_manager.dfy` (`Store`): the `DataManager` class. Its fields are `units: seq<DroneUnit>` and `current: int`.
- `ui_visualizer.dfy` (`Visualizer`):
  - the graph window as a pure function, `GraphWindow`;
  - the per-frame state machine as a pure function, `Tick`, over the cursor, the watermark `lastCurrentIdx` and the table's selected row;
  - the classes `Table`, `LineGraph` and `UIVisualizer`, whose methods are proved against those functions.

Numbers: `float` and `double` become `real`, and `int` and `long` become `int`.

Two behaviours of the code are worth stating explicitly:

- **A selection write does not refresh in the same frame.** The write (`UIVisualizer.cs:105-108`) only moves `current`. The refresh happens on the next frame, through the watermark branch (`Tick`, `SelectionSettles`).
- **The graph window always has exactly `samplesWidth` points.** Positions before the start of the list plot as 0, so the window is never shortened (`GraphWindow`, `WindowMatchesRecent`).

## Model

| member | source | states |
|---|---|---|
| Units.NewUnit | Assets/Scripts/DataManager.cs:103-121 | the new sample carries the given index and time stamp, and every sensor field from pitch to pressure is zero |
| Units.Random | Assets/Scripts/DataManager.cs:165-196 | the generated sample has index `idx`; the other fields are whatever the generator drew |
| Units.Assemble | Assets/Scripts/DataManager.cs:130-148 | the object initializer puts the k-th value into the k-th field of the wire order, for all sixteen fields |
| Units.AssembleFields | Assets/Scripts/DataManager.cs:85-94 | a sample is determined by its sixteen fields in wire order: their values are well kinded and assembling them gives back the sample |
| Units.FieldsDetermineUnit | Assets/Scripts/DataManager.cs:85-94 | two samples that agree on all sixteen fields are equal |
| Text.Trim | Assets/Scripts/DataManager.cs:129 | the trimmed line neither starts nor ends with space, CR, LF or tab, it is no longer than the input, and a line with clean ends is unchanged |
| Text.TrimStart | Assets/Scripts/DataManager.cs:129 | the result is a suffix of the input, everything dropped is a trimmed character, and the result does not start with one |
| Text.TrimEnd | Assets/Scripts/DataManager.cs:129 | the result is a prefix of the input, everything dropped is a trimmed character, and the result does not end with one |
| Text.TrimIsMiddle | Assets/Scripts/DataManager.cs:129 | the trimmed line is a contiguous slice of the input, and every character before or after that slice is a space, CR, LF or tab |
| Text.RemoveChar | Assets/Scripts/DataManager.cs:129 | no occurrence of the removed character is left |
| Text.RemoveCharLength | Assets/Scripts/DataManager.cs:129 | the length drops by exactly the number of occurrences of the removed character |
| Text.RemoveCharAbsent | Assets/Scripts/DataManager.cs:129 | a line without the removed character is returned unchanged |
| Text.RemoveCharKeeps | Assets/Scripts/DataManager.cs:129 | the result holds every other character exactly as often as the input, and the removed character not at all |
| Text.RemoveCharConcat | Assets/Scripts/DataManager.cs:129 | removing from a concatenation is removing from each part and concatenating, so the characters that stay keep their order |
| Text.Join | Assets/Scripts/DataManager.cs:154 | the joined line starts with the first field, and a separator follows it when there is a second field |
| Text.Split | Assets/Scripts/DataManager.cs:129 | splitting gives one more field than there are commas, and no field holds a comma |
| Text.JoinSplit | Assets/Scripts/DataManager.cs:129 | joining the fields of a split with the same separator gives back the input |
| Text.SplitJoin | Assets/Scripts/DataManager.cs:129 | splitting the join of comma-free fields gives back exactly those fields |
| Text.SplitAfterField | Assets/Scripts/DataManager.cs:129 | splitting a line that starts with a comma-free field prepends that field to the first field of the rest |
| Text.JoinCount | Assets/Scripts/DataManager.cs:154 | a joined line holds one comma between each pair of fields, plus the commas inside the fields |
| Text.CountConcat | Assets/Scripts/DataManager.cs:129 | the number of occurrences of a character is additive over concatenation |
| Units.FieldOf | Assets/Scripts/DataManager.cs:88-94 | field k of a sample has the shape of its declared type in the wire order (integral for index and unixTime, real otherwise) |
| Units.Read | Assets/Scripts/DataManager.cs:132-147 | a successful conversion of field text yields a value of the field's declared type |
| Units.ReadFrom | Assets/Scripts/DataManager.cs:130-148 | reading fields in initializer order succeeds exactly when every remaining field exists and converts; on success each value is its own field's conversion; on failure the error names the first field that is missing or does not convert |
| Units.ParseFields | Assets/Scripts/DataManager.cs:130-148 | a sample is produced exactly when all sixteen fields exist and convert, each field being read from its own position; otherwise the first failing position is reported, and a missing field means fewer than sixteen fields were given |
| Units.WireFields | Assets/Scripts/DataManager.cs:129 | the split line has one more field than the normalised line has commas, no field holds a comma or a space, and joining the fields with commas gives back the trimmed line with its spaces removed |
| Units.Parse | Assets/Scripts/DataManager.cs:127-150 | a line with fewer than fifteen commas after normalisation fails; parsing succeeds exactly when each of the first sixteen fields of the normalised line exists and converts, and then field k of the sample is what the k-th field text reads as |
| Units.ReadFromIgnoresExtra | Assets/Scripts/DataManager.cs:130-148 | the field reader never looks past the sixteenth field |
| Units.ParseIgnoresExtraFields | Assets/Scripts/DataManager.cs:130-148 | fields after the sixteenth do not change the result of parsing |
| Units.Show | Assets/Scripts/DataManager.cs:155-160 | a field is printed with the `ToString` of its declared type: `int` for the index, `long` for the time stamp, `float` or `double` for the rest |
| Units.FieldTexts | Assets/Scripts/DataManager.cs:154-161 | there are sixteen texts, and text k is field k of the sample printed with the conversion of its declared type |
| Units.Stringify | Assets/Scripts/DataManager.cs:152-162 | the line has fifteen separator commas plus those inside the field texts |
| Units.JoinHasFields | Assets/Scripts/DataManager.cs:154-161 | every character of a field text occurs in the joined line |
| Units.JoinChars | Assets/Scripts/DataManager.cs:154-161 | every character of the joined line is a comma or a character of some field text |
| Units.StringifySplits | Assets/Scripts/DataManager.cs:127-161 | splitting the line on commas gives back each field's text in position, when no field text contains a comma |
| Units.ParseStringify | Assets/Scripts/DataManager.cs:127-161 | when no field text contains a comma or a space and the line's ends are clean, parsing the line reads each field from its own printed text |
| Units.RoundTrip | Assets/Scripts/DataManager.cs:127-161 | when no field text holds a comma, space, CR, LF or tab, and every conversion reads back what it printed, `Parse(Stringify(u))` succeeds with `u` |
| Store.DataManager.constructor | Assets/Scripts/DataManager.cs:14-19 | a new component has no samples and its cursor is 0 |
| Store.DataManager.NextIndex | Assets/Scripts/DataManager.cs:23 | the next index is the number of samples plus one, and with indices running from 1 it exceeds every stored index |
| Store.DataManager.CurrentData | Assets/Scripts/DataManager.cs:21 | defined only for a cursor in range; the sample is in the store, and with indices running from 1 its index is the cursor plus one |
| Store.DataManager.Start | Assets/Scripts/DataManager.cs:27-33 | an empty store gets exactly one zeroed sample with index 1; a non-empty store is unchanged; the cursor is untouched; index numbering is preserved |
| Store.DataManager.GenerateStep | Assets/Scripts/DataManager.cs:46-47 | on a non-empty store, appends one sample with index old length plus one and moves the cursor by one, leaving earlier samples unchanged; an in-range cursor stays in range and a tail cursor stays at the tail; on an empty store nothing changes |
| Store.Stamped | Assets/Scripts/DataManager.cs:46 | the k-th generated sample gets index `first + k` |
| Store.DataManager.AddFakeData | Assets/Scripts/DataManager.cs:41-49 | after n timer fires the store is the old store plus n generated samples numbered from old length plus one, and the cursor has moved by n; index numbering, cursor range and a tail cursor are preserved |
| Store.DataManager.Clear | Assets/Scripts/DataManager.cs:51-56 | afterwards the store holds exactly one zeroed sample with index 1, and the cursor is 0 |
| Visualizer.Tick | Assets/Scripts/UIVisualizer.cs:96-109 | a refresh happens exactly when the cursor differs from the watermark; it sets the watermark to the cursor and the selection to the cursor's index; a selection write happens exactly when there is no refresh, a row is selected, and that row is not the cursor's; the write moves the cursor to row minus one without refreshing, so the next frame refreshes; otherwise nothing changes; consistency is preserved |
| Visualizer.Run | Assets/Scripts/UIVisualizer.cs:96-109 | running any number of frames from a consistent state keeps it consistent |
| Visualizer.RefreshSettles | Assets/Scripts/UIVisualizer.cs:98-108 | with indices running from 1, the frame after a refresh is idle |
| Visualizer.SelectionSettles | Assets/Scripts/UIVisualizer.cs:98-108 | after a selection write the next frame refreshes, and the frame after that is idle |
| Visualizer.IdleStays | Assets/Scripts/UIVisualizer.cs:96-109 | once a frame is idle, every later frame leaves the state unchanged |
| Visualizer.RunSplit | Assets/Scripts/UIVisualizer.cs:96-109 | running a+b frames is running a frames and then b frames |
| Visualizer.Quiescent | Assets/Scripts/UIVisualizer.cs:96-109 | from any consistent state the third frame is idle, and the state after two frames is the state after any later frame |
| Visualizer.Table.SetSelected | Assets/Scripts/UIVisualizer.cs:64 | the table's selected row becomes the given row |
| Visualizer.UIVisualizer.Update | Assets/Scripts/UIVisualizer.cs:96-109 | the new watermark, cursor and selection are those `Tick` gives; the samples are unchanged; after a refresh every graph shows its window, and otherwise the graph buffers and their contents are unchanged |
| Visualizer.UIVisualizer.ValidateUI | Assets/Scripts/UIVisualizer.cs:41-91 | the table selects the current sample's index, and each of the nine graphs shows the window of its channel ending at that index |
| Visualizer.UIVisualizer.HandleGraph | Assets/Scripts/UIVisualizer.cs:66-80 | a buffer of the right length is reused and any other is replaced by a fresh one; afterwards the buffer holds exactly the graph window |
| Visualizer.Fetch | Assets/Scripts/UIVisualizer.cs:82-90 | graph k of the nine reads field k + 2 of the sample, pitch through magZ in wire order |
| Visualizer.SampleAt | Assets/Scripts/UIVisualizer.cs:75-76 | a position before the start of the store plots 0, and every plotted value lies in [0, 1) |
| Visualizer.WindowPoint | Assets/Scripts/UIVisualizer.cs:73-76 | point i plots 0 when its store position is negative, its y lies in [0, 1), and the first and last points sit at x = 0 and x = 1 |
| Visualizer.UIVisualizer.constructor | Assets/Scripts/UIVisualizer.cs:93 | a new view holds the given store, table, graphs and width, and its watermark starts at -1 |
| Visualizer.GraphWindow | Assets/Scripts/UIVisualizer.cs:68-78 | the window has exactly `samplesWidth` points; x runs from 0 to 1 and strictly increases; every y lies in [0, 1) |
| Visualizer.WindowEndsAtCursor | Assets/Scripts/UIVisualizer.cs:73-76 | with indices running from 1, the last point plots the cursor's sample; point i plots store position cursor + 1 - W + i, and positions before 0 plot 0 |
| Visualizer.Recent | Assets/Scripts/UIVisualizer.cs:73 | the slice holds the last min(W, cursor + 1) samples and ends with the cursor's sample |
| Visualizer.WindowMatchesRecent | Assets/Scripts/UIVisualizer.cs:73-76 | the window is zero padding followed by the folded values of the last min(W, cursor + 1) samples, in order |
| Visualizer.Repeat | Assets/Scripts/UIVisualizer.cs:76 | `Mathf.Repeat(t, length)` lies in [0, length) |
| Visualizer.FloorBounds | Assets/Scripts/UIVisualizer.cs:76 | `t` lies between `floor(t/length)*length` and the next multiple of `length` |
| Visualizer.RepeatPeriodic | Assets/Scripts/UIVisualizer.cs:76 | shifting the input by a whole number of periods does not change `Repeat` |
| Visualizer.RepeatInRange | Assets/Scripts/UIVisualizer.cs:76 | a value already in [0, length) is returned unchanged |
| Visualizer.Fold | Assets/Scripts/UIVisualizer.cs:76 | a plotted value `Repeat(v, 360)/360` lies in [0, 1) |
| Visualizer.XAt | Assets/Scripts/UIVisualizer.cs:74 | the first point's x is 0 and the last point's x is 1 |
| Visualizer.XAtAscending | Assets/Scripts/UIVisualizer.cs:74 | x strictly increases with the point number |

## Left out

- Import and Export (`DataManager.cs:71-80`) and the file dialog coroutines (`UIVisualizer.cs:111-137`) are left out. They are file I/O and JSON reflection, and an import may overwrite the store arbitrarily.
- Exit and Fullscreen are left out because they are host calls.
- The `ValidateUI` text labels (`UIVisualizer.cs:46-61`) are left out because they are number formatting for display. `table.UpdateContent()` is left out because it is a widget call with no effect on the modelled state.
- The serial port component is not part of this model. Its data step appends a parsed sample with index `NextIndex` and advances the cursor, the same append-and-advance as `GenerateStep`.
- The 3-D drone view, the camera hook and the table widget's editor and column layout are not part of this model, because they are engine and widget code.
- Units.Random: the random perturbation, the clock and the seed arithmetic are not modelled, so `drawn` stands for the generator's output and only the index is fixed. In the source, `temp` and `pressure` are perturbed from the seed's `pitch`, and `lat` and `lng` pass through a `float` cast; neither detail is modelled.
- Store.DataManager.AddFakeData: the two-second wait and the `fakeData` flag are not modelled. The number of timer fires before the flag is cleared is the length of `draws`.
- Units.Read: the culture-dependent text conversions are abstract, given by a `NumberFormat` value. Floating-point printing and parsing is not modelled, so `RoundTrip` assumes each conversion reads back what it printed.
- Units.ParseStringify: the round trip needs the line to have no leading or trailing space, CR, LF or tab, as well as no comma or space inside a field. Otherwise trimming would change the first or last field.
- Integer widths are not modelled. `int` and `long` fields are unbounded, and `current++` cannot overflow.
- Visualizer.Repeat: floats are modelled as reals. The float computation can round up to exactly `length`, but the model's result is always strictly less.
- Visualizer.UIVisualizer.HandleGraph: requires `samplesWidth >= 2`. With width 1 the source divides by zero and plots NaN; with width 0 the buffer is empty; a negative width throws. `SetVerticesDirty` is a rendering call and is left out.
- Visualizer.UIVisualizer.ValidateUI: requires a cursor in range and a current index no larger than the store, where the source throws instead. The nine `HandleGraph` calls become a loop over the nine channels.
- Visualizer.UIVisualizer.Update: requires that, when the cursor has moved, it names a stored sample whose index is no larger than the store. The source throws in `CurrentData` or in `HandleGraph` otherwise. A selection write may move the cursor anywhere; the frame after it then needs the same condition.
- Visualizer.Table.SetSelected: the table widget's source is not part of this model. `SetSelected` is taken to set `SelectedRow` to its argument.
