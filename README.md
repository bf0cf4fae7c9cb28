# Live plotting from a data stream — a Dafny model

The Python program plots values as they stream in. A client writes text lines
such as `accel,0.1,-2.5,9.8`, one per record. A reader takes one line from
standard input, a serial port or a TCP socket. It optionally checks the XOR
checksum the line ends with. It splits the line at commas, keeps the first
field as the label and converts the remaining fields to floats. It hands the
plotter a triple `(label, data, isNumerical)`.

Two plotters consume these triples.

- `plotter.py` keeps a numpy ring of `n` rows per label, with the positions,
  counts and y-limits of each label.
- `plot_lib.py` delegates storage to `ring.Ring` objects.

Both plotters:

- discover the labels of the stream;
- find how many lines each label has;
- store the records;
- react to keys: `x` resets, `p` pauses, `r` rediscovers, enter types a
  command that is sent back to the reader, and `q` quits;
- treat a record labelled `COMMAND` as a key press.

## How the program is modelled

Each Python module is a Dafny module:

- `Interpretations` covers `interpretations.py`: the checksum, `alwaysTrue`
  and the float conversion.
- `Records` holds the classification of a line, which the three readers share.
- `PipeReader` and `SerialReader` model one call of those readers.
- `SocketReader` models one call of the socket reader, as a function and as
  the method of a `Reader` class.
- Python's `str.split`, `str.strip`, `sorted`, UTF-8 and `float` are in
  `Text`, `Utf8` and `FloatText`.

Each plotter is a class whose fields are the Python attributes: `PlotterObject`
for `plotter.py` and `PlotLib` for `plot_lib.py`. Every method is proved to
leave the object in the state that a function of a state datatype gives:
`PlotterState` and `PlotLibState` respectively. The properties of the
plotters are lemmas about those functions.

The surroundings of the program become values:

- The reader's answers, in order, are a sequence of readings (`feed`). Each
  reading is a record or the exception the call raised.
- The lines written back to the reader are a sequence (`sent`).
- The readings of `time.time()` that the two timed loops of `plot_lib.py`
  see are a sequence (`clock`). The other calls of `time.time()` only stamp
  the throttle of `update` or name a saved picture, and are not modelled.
- An exception that escapes, or `sys.exit`, sets `halted`. No operation
  changes a halted state.

In a numpy array a cell is a number or NaN. The model writes a cell as
`Some(v)`, or `None` for NaN.

Where the repository's written description differs from the code, the model
follows the code:

- A record of the wrong width is printed and otherwise ignored. Nothing is
  reported.
- The y-limits of `plotter.py` widen only when the plot is drawn. They do not
  widen when a record arrives.
- The label thresholds are constants of the code:
  - `plotter.py` keeps a label seen as a numeric record at least 10 times
    among its first 100 readings, of any kind.
  - `plot_lib.py` keeps a label seen twice within one second.

## Model

| member | source | states |
|---|---|---|
| Interpretations.CalcCrc | interpretations.py:29-33 | the loop's result is the XOR of the code points of every character (`XorAll`), 0 for the empty string |
| Interpretations.XorAppend | interpretations.py:30-32 | the accumulator starts at 0 and each character XORs its code point in |
| Interpretations.XorConcat | interpretations.py:29-33 | the checksum of a concatenation is the XOR of the checksums of the parts |
| Interpretations.XorBelow256 | interpretations.py:7-9 | a line of code points below 256 has a checksum below 256, so one trailing character can carry it |
| Interpretations.XorDiffers | interpretations.py:29-33 | changing any one character changes the checksum |
| Interpretations.Crc | interpretations.py:6-12 | fails, with IndexError, exactly on the empty line; otherwise returns the line without its last character |
| Interpretations.CrcRoundTrip | interpretations.py:6-12 | a line followed by its checksum character passes the check and comes back without that character |
| Interpretations.CrcDetectsChange | interpretations.py:6-12 | a line with one payload character changed is reported bad, and its payload is still handed back |
| Interpretations.AlwaysTrue | interpretations.py:15-16 | every line is accepted and handed on unchanged |
| Interpretations.FloatOf | interpretations.py:23 | `float(s)` gives a value exactly when `s` is a decimal literal in ASCII digits, possibly with white space around it |
| Interpretations.ToFloat | interpretations.py:22-23 | the only error is ValueError; a success has one value per field |
| Interpretations.ToFloatAt | interpretations.py:22-23 | the conversion succeeds exactly when every field converts, and then position `i` holds the value of field `i` |
| Interpretations.ToFloatRendered | interpretations.py:22-23 | fields written from decimals convert to exactly the values of those decimals, even when the last field carries the line end |
| Interpretations.ToFloatLosesValues | interpretations.py:22-23 | as written the conversion gives None for a line of numbers; corrected, it gives their values |
| Interpretations.OnePointFive | interpretations.py:22-23 | the field `1.5` denotes the value 1.5: the concrete input of the finding |
| FloatText.LexRender | interpretations.py:23 | recognising the text of a well-formed decimal gives that decimal back |
| FloatText.ParseRender | interpretations.py:23 | a decimal written out with white space around it is accepted by `float`, which gives its value |
| FloatText.RenderParses | interpretations.py:23 | a decimal written out and followed by white space is accepted by `float`, which gives its value |
| Text.Split | pipe_reader.py:29 | `split(',')` gives at least one part; no part holds a comma; joining the parts with commas gives the line back |
| Text.SplitJoin | pipe_reader.py:29-30 | splitting a comma-joined list of comma-free fields gives the list back, so the label is the first field |
| Text.Strip | plotter.py:202 | `strip()` is the part of the text between its leading and its trailing white space |
| Text.Sort | plotter.py:251 | `sorted` gives an ordered permutation of its input |
| Text.SortKeepsDistinct | plotter.py:250-251 | sorting a list without repetitions keeps it without repetitions |
| Utf8.DecodeEncode | serial_reader.py:21-23 | the UTF-8 bytes `write` sends decode back to the message |
| Utf8.EncodeCharDecodes | serial_reader.py:40 | the bytes of one character form one well-formed sequence that decodes to that character |
| Utf8.SingleByteDecodes | socket_reader.py:33-34 | one byte decodes exactly when it is below 0x80, and then to the character with that code |
| Records.Classify | pipe_reader.py:25-35 | an IndexError escapes exactly when the checksum is asked of an empty line; labels hold no comma; the label filter is respected; a non-numeric line keeps all its fields |
| Records.ClassifyDataLine | pipe_reader.py:27-31 | a line a client writes for a label and decimals, checksum included, is classified as that label with those values, or as rejected for another label |
| Records.SplitDataLine | pipe_reader.py:29-31 | splitting a data line gives its label followed by its fields |
| Records.ClassifyGood | pipe_reader.py:27-31 | a line that passes its check and converts is accepted with its label and values, or rejected when another label is wanted |
| PipeReader.Write | pipe_reader.py:13-14 | a message written to the pipe reader is discarded: no byte is sent |
| PipeReader.PipeDataLine | pipe_reader.py:16-31 | a data line on standard input, line end included, is returned as the numeric record it encodes |
| PipeReader.PipeNotNumeric | pipe_reader.py:32-34 | a line whose fields do not all convert is returned as its label with the remaining fields as strings |
| PipeReader.PipeEndOfInput | pipe_reader.py:20-35 | the empty line at the end of the input reads as `('', [], True)`, and raises IndexError under the checksum |
| SerialReader.Write | serial_reader.py:21-23 | the bytes sent are the UTF-8 encoding of the message, which decodes back to it |
| SerialReader.SerialDataLine | serial_reader.py:25-50 | a data line sent in UTF-8 is read back as the numeric record it encodes |
| SerialReader.DecodedLine | serial_reader.py:38-54 | a line of UTF-8 text is classified as that text; a rejected line comes back as its bytes |
| SerialReader.SerialQuiet | serial_reader.py:29-37 | silence gives `b''`: `('', [], True)` without a checksum, IndexError with one, and `b''` in raw mode |
| SerialReader.SerialUndecodable | serial_reader.py:39-42 | a line that is not UTF-8 comes back as the bytes read, marked non-numeric |
| SerialReader.SerialHighByte | serial_reader.py:39-42 | a single byte of 0x80 or above is such a line |
| SocketReader.DecodeByte | socket_reader.py:33-34 | a received byte becomes a character exactly when it is ASCII |
| SocketReader.Frame | socket_reader.py:29-66 | the gathered line holds no carriage return and no line feed, is ASCII, and uses only the events that arrived |
| SocketReader.FrameText | socket_reader.py:29-66 | ASCII text followed by a stopping event gives that text without its carriage returns, having used every event up to the stop |
| SocketReader.FrameLine | socket_reader.py:45-49 | a line sent as `text\r\n` is gathered as `text`, ended by the line feed |
| SocketReader.SocketDataLine | socket_reader.py:24-63 | a data line sent with `\r\n`, checksum included, is returned as the numeric record it encodes |
| SocketReader.SocketCutShort | socket_reader.py:32-43 | silence or a hang-up before the line feed returns the text gathered so far, with no fields |
| SocketReader.SocketSilent | socket_reader.py:32-36 | with nothing arriving, the empty line is returned |
| SocketReader.SocketUndecodable | socket_reader.py:37-38 | a byte outside ASCII ends the line, which is returned as it stands |
| SocketReader.Reader.constructor | socket_reader.py:10-16 | a new reader is open, has sent nothing, and will read the given events |
| SocketReader.Reader.CloseConnection | socket_reader.py:18-19 | the connection is closed; nothing else changes |
| SocketReader.Reader.Write | socket_reader.py:21-22 | an open socket sends the UTF-8 bytes of the message; a closed one raises OSError and sends nothing |
| SocketReader.Reader.Call | socket_reader.py:24-67 | a closed socket raises ValueError; an open one consumes exactly the events of one line, returns what `Finish` makes of it, and is closed when the peer hung up |
| Discovery.CommandKey | plotter.py:201-202 | the key of a COMMAND record is its first field stripped; an empty field list raises IndexError and a numeric value raises AttributeError |
| Discovery.TallyCounts | plotter.py:229-234 | the counter holds each non-empty label of a numeric record once, with the number of such records |
| Discovery.Frequent | plotter.py:250 | a label is kept exactly when it is counted at least the threshold times; keys without repetition give a result without repetition |
| Discovery.ChosenLabels | plotter.py:248-251 | discovery gives, in increasing order and each once, exactly the non-empty labels of at least `threshold` numeric records |
| Discovery.DiscoverClean | plotter.py:230-234 | when no reading raises, the loop counts the records of exactly the readings it makes |
| Discovery.DiscoverRaises | plotter.py:230-231 | the loop stops at the first reading that raises and passes the exception on |
| Discovery.LinesFromFirst | plotter.py:213-223 | the search ends at the first numeric record of the label with 1 to 15 values, or at the first exception, or after `maxTries` readings; a width it finds lies between 1 and 15 |
| Discovery.DiscoverTimedFrom | plot_lib.py:194-200 | counting while the second lasts is counting over as many readings as the loop makes passes |
| Discovery.LinesTimedFrom | plot_lib.py:210-217 | searching while the second lasts is searching over as many readings as the loop makes passes |
| Rows.Zeros | plotter.py:153 | `np.zeros(w)` is `w` cells holding 0 |
| Rows.ZeroGrid | plotter.py:153 | `np.zeros((n, w))` is `n` rows of zeros |
| Rows.ZeroXs | plotter.py:154 | `np.zeros(n)` is `n` zeros |
| Rows.Blank | plotter.py:135 | assigning None to a float row leaves NaN in every cell |
| Rows.Cells | plotter.py:197 | the row of a record holds its values in order |
| Rows.Fit | plotter.py:197 | a value broadcasts to a row exactly when it is as wide as the row, or one wide; it is copied or repeated |
| Rows.SetRow | plotter.py:197 | `g[i, :] = value` succeeds exactly for a row index and a value that broadcasts; only row `i` changes |
| Rows.Broadcast | plotter.py:151 | `np.zeros((n, w)) + row` is `n` copies of the row broadcast to width `w`; when `w` is 1 the zeros stretch instead and each copy is the row itself; otherwise it fails exactly when the row does not broadcast |
| Rows.Least | plotter.py:118-119 | `.min()` is NaN exactly when some cell is NaN; otherwise it is a cell no greater than any cell |
| Rows.Greatest | plotter.py:122-123 | `.max()` is NaN exactly when some cell is NaN; otherwise it is a cell no smaller than any cell |
| Rows.LimitsNeverNarrow | plotter.py:117-124 | the lower limit never rises and the upper limit never falls |
| Rows.LimitsCover | plotter.py:117-124 | once the limits are lowered and raised to a ring of numbers, every cell lies between them |
| PlotterState.Copied | plotter.py:151 | the ring `reset` builds from the previous head row is `n` rows of the label's width, all numbers |
| PlotterState.ResetKeeps | plotter.py:147-158 | reset gives every label a ring of copies of its previous head row, zero positions, count 0 and infinite limits; nothing else changes; the plotter stays valid |
| PlotterState.SetUpGiven | plotter.py:42-88 | with labels given, set-up ends with those labels, each with its width, a zero ring and cleared positions, unless a width search fails; with labels each given once the plotter is valid, and with a repeated label it runs with ring keys that never match the labels |
| PlotterState.SetUpDiscovers | plotter.py:42-88 | with no label given, an exception among the first 100 readings ends the program; otherwise the labels are the ones chosen from those readings |
| PlotterState.DiscoverLabelsReads | plotter.py:225-251 | discovery takes exactly 100 readings and chooses among their records, or ends the program at an exception |
| PlotterState.SetUpFrom | plotter.py:50-88 | emptying the dictionaries, finding the widths and resetting gives a started plotter for the labels, valid when they are distinct and repeating otherwise, or ends the program |
| PlotterState.SetUpFromDistinct | plotter.py:50-88 | with each label once, the reset after the widths are found leaves a valid plotter with zero rings |
| PlotterState.SetUpFromRepeated | plotter.py:50-88 | with a label repeated, the reset after the widths are found leaves a running plotter with zero rings, whose ring keys differ from its labels |
| PlotterState.WidthsFromFound | plotter.py:77-81 | every label ends with a width between 1 and 15, and only the reader and the widths change, unless the program ends |
| PlotterState.GetDataStores | plotter.py:193-200 | a record of a plotted label with the label's width goes to row `index mod n`; the row is stamped with the index, the index grows by one, and the plotter stays valid |
| PlotterState.StoreAt | plotter.py:195-199 | storing writes exactly the row `index mod n`, its x value and the next index, and moves the head there |
| PlotterState.ValidStored | plotter.py:195-199 | storing a record of the right width keeps the plotter valid |
| PlotterState.GetDataRaises | plotter.py:194 | a reading that raises ends the program |
| PlotterState.GetDataCommand | plotter.py:188-204 | a COMMAND record with fields presses the key its first field spells, stripped; a `q` outside command mode raises AttributeError on the event's missing canvas, so the program ends with the connection still open |
| PlotterState.GetDataPrints | plotter.py:205-210 | a record that is neither stored nor a command only consumes the reading: rings, positions and counts are unchanged, and the plotter stays valid |
| PlotterState.GetDataValid | plotter.py:193-211 | every reading keeps a valid plotter valid, or ends the program |
| PlotterState.PressValid | plotter.py:160-191 | every key keeps a valid plotter valid, or ends the program |
| PlotterState.PressSends | plotter.py:161-166 | enter in command mode sends the command with `\r\n`, empties it and leaves command mode |
| PlotterState.PressTypes | plotter.py:167-169 | any other key in command mode is appended to the command and nothing else changes |
| PlotterState.PressPauses | plotter.py:174-175 | `p` toggles the freeze, and pressed twice changes nothing |
| PlotterState.PressResets | plotter.py:171-172 | `x` is `reset`: every ring is refilled with its previous head row, positions, counts and limits start over, nothing else changes, and the plotter stays valid |
| PlotterState.PressStartsCommand | plotter.py:184-186 | enter starts command mode |
| PlotterState.PressIgnores | plotter.py:181-191 | `q` closes the connection and ends the program; other keys, `g` among them, change nothing modelled |
| PlotterState.PressCommand | plotter.py:160-186 | enter, then keys, then enter sends exactly the concatenated keys with `\r\n`, and the plotter is otherwise unchanged |
| PlotterState.TypeThenSend | plotter.py:161-169 | in command mode, the keys up to an enter are appended and then sent |
| PlotterState.UpdateRestores | plotter.py:109-145 | drawing with no key pressed leaves the rings as they were, keeps the plotter valid, and only widens the limits, which then cover every value of each ring |
| PlotterState.DrawnBack | plotter.py:132-143 | drawing visits every label, and putting the saved head rows back gives the rings as they were |
| PlotterState.UpdateLimits | plotter.py:117-124 | the widened limits never narrow, cover the ring, and keep the plotter valid |
| PlotterState.UpdateFrozen | plotter.py:109-110 | a frozen plot is not drawn and nothing changes |
| PlotterState.InitRuns | plotter.py:25-40 | a new plotter with labels runs with those labels, or a width search ended it: valid when each label is given once, repeating when one is given twice; without labels it is valid and empty |
| PlotterState.ResetRepeated | plotter.py:147-158 | when a label repeats, the ring keys never equal the labels, so reset makes every ring zeros and restarts positions, counts and limits, changing nothing else |
| PlotterState.ResetFromZeros | plotter.py:148-158 | the reset loop over repeated labels zeroes each label it reaches and keeps the ring keys once each |
| PlotterState.UpdateRepeated | plotter.py:109-145 | with a repeated label, drawing with no key pressed never finds the saved rows keyed as the labels, so it always resets: every ring becomes zeros, and the plotter keeps running |
| PlotterState.LoosenRepeated | plotter.py:113-128 | with a repeated label, no label of the drawing fails and the saved head rows are keyed once each |
| PlotterObject.Plotter.constructor | plotter.py:25-40 | the new object is the state `Init` gives |
| PlotterObject.Plotter.Ready | plotter.py:38-40 | the plot runs and no command is being typed; nothing else changes |
| PlotterObject.Plotter.ReadyFields | plotter.py:38-40 | the same three assignments, attribute by attribute |
| PlotterObject.Plotter.Read | plotter.py:194 | returns the next reading and consumes it |
| PlotterObject.Plotter.Fail | plotter.py:191 | the program ends |
| PlotterObject.Plotter.ResetLabel | plotter.py:148-158 | the body of the loop of `reset` for one label gives `ResetOne` of the old state |
| PlotterObject.Plotter.Restart | plotter.py:151-157 | the label gets its new ring and its key, with cleared positions, count and limits |
| PlotterObject.Plotter.RestartFields | plotter.py:151-157 | the same stores, attribute by attribute |
| PlotterObject.Plotter.Reset | plotter.py:147-158 | the loop leaves the state `Reset` gives |
| PlotterObject.Plotter.DiscoverLabels | plotter.py:225-251 | the loop returns the labels `DiscoverLabels` chooses and consumes the same readings |
| PlotterObject.Plotter.GetLinesPerType | plotter.py:213-223 | the loop returns the width the 100-reading search gives, and only the reader moves |
| PlotterObject.Plotter.Start | plotter.py:48-61 | the labels are set and every dictionary is emptied |
| PlotterObject.Plotter.StartFields | plotter.py:48-61 | the same stores, attribute by attribute |
| PlotterObject.Plotter.SetUp | plotter.py:42-91 | the object ends in the state `SetUp` gives |
| PlotterObject.Plotter.Press | plotter.py:160-191 | the object ends in the state `Press` gives |
| PlotterObject.Plotter.Send | plotter.py:162-166 | the command is sent with `\r\n` and emptied, and command mode ends |
| PlotterObject.Plotter.SendFields | plotter.py:162-166 | the same stores, attribute by attribute |
| PlotterObject.Plotter.StoreRecord | plotter.py:195-199 | the object ends in the state `Store` gives |
| PlotterObject.Plotter.Put | plotter.py:196-199 | the head, the row, its x value and the next index are stored; nothing else changes |
| PlotterObject.Plotter.PutFields | plotter.py:196-199 | the same stores, attribute by attribute |
| PlotterObject.Plotter.GetData | plotter.py:193-211 | the object ends in the state `GetData` gives |
| PlotterObject.Plotter.LoosenLabel | plotter.py:117-135 | one label's limits widen and its head row is saved and blanked, as `LoosenOne` says |
| PlotterObject.Plotter.Loosen | plotter.py:111-135 | the loop over the labels gives the rings, limits and saved rows of `LoosenFrom`, and nothing else changes |
| PlotterObject.Plotter.LoosenLabels | plotter.py:112-135 | the same loop, over the attributes it changes |
| PlotterObject.Plotter.PressKeys | plotter.py:137 | the keys pressed during the pause act in turn |
| PlotterObject.Plotter.Restore | plotter.py:141-143 | the saved rows go back to the head of their rings, and nothing else changes |
| PlotterObject.Plotter.RestoreRows | plotter.py:141-143 | the same loop, over the attributes it changes |
| PlotterObject.Plotter.UpdatePlotData | plotter.py:109-145 | the object ends in the state `UpdatePlotData` gives |
| PlotLibState.Call | plot_lib.py:168 | a call on a ring keeps its width and length and appends exactly that call |
| PlotLibState.CallEach | plot_lib.py:138-139 | calling a method on every ring, in key order, calls it once on each ring and on no other |
| PlotLibState.CallKeeps | plot_lib.py:103-119 | a call on every ring keeps the plotter valid |
| PlotLibState.LinesTimedWidth | plot_lib.py:208-219 | a width the search finds lies between 1 and 15 |
| PlotLibState.InitializePlotBuilds | plot_lib.py:72-78 | one more plot gives its label a ring and changes only the reader, the clock and the rings, unless the search fails |
| PlotLibState.PlotsFromBuilds | plot_lib.py:65-66 | the loop gives every label a ring, unless a search fails |
| PlotLibState.SetUpKeeps | plot_lib.py:55-66 | `setUp(False)` keeps the labels and gives each a new ring, unless a search fails |
| PlotLibState.SetUpDiscovers | plot_lib.py:55-66 | `setUp(True)` uses the labels chosen from the readings made during the discovery second, or ends at an exception among them |
| PlotLibState.InitRuns | plot_lib.py:41-53 | a new plotter is valid with the given labels and ring length, fresh rings, no command and nothing sent, unless a search fails |
| PlotLibState.GetDataUpdates | plot_lib.py:166-168 | a numeric record of a label, as wide as its ring, is handed to that ring and to no other |
| PlotLibState.GetDataPrints | plot_lib.py:173-178 | a record that is neither stored nor a command only consumes the reading |
| PlotLibState.GetDataCommand | plot_lib.py:160-172 | a COMMAND record with fields presses the key its first field spells, stripped; a `q` outside command mode raises AttributeError on the event's missing canvas, so the program ends with the connection still open |
| PlotLibState.GetDataRaises | plot_lib.py:166 | a reading that raises ends the program |
| PlotLibState.GetDataValid | plot_lib.py:165-178 | every reading keeps a valid plotter valid, or ends the program |
| PlotLibState.PressValid | plot_lib.py:123-163 | every key keeps a valid plotter valid, or ends the program |
| PlotLibState.PressResets | plot_lib.py:137-139 | `x` resets every ring once and changes nothing else |
| PlotLibState.PressPauses | plot_lib.py:142-143 | `p` toggles the freeze, and pressed twice changes nothing |
| PlotLibState.PressRediscovers | plot_lib.py:146-148 | `r` sets up again with discovered labels |
| PlotLibState.PressQuits | plot_lib.py:160-163 | `q` closes the connection and ends the program |
| PlotLibState.PressCommand | plot_lib.py:123-157 | enter, then keys, then enter sends exactly the concatenated keys with `\r\n` |
| PlotLibState.TypeThenSend | plot_lib.py:125-134 | in command mode, the keys up to an enter are appended and then sent |
| PlotLibState.PressFromValid | plot_lib.py:116 | a sequence of keys keeps a valid plotter valid, or ends the program |
| PlotLibState.HaltedStays | plot_lib.py:160-163 | once the program has ended, no key changes anything |
| PlotLibState.UpdateTails | plot_lib.py:101-119 | with no key pressed, every ring loosens and then fixes its tail, once each, and nothing else changes |
| PlotLibState.UpdateFrozen | plot_lib.py:120-121 | a frozen plot only pauses, which handles the pressed keys |
| PlotLibState.UpdateValid | plot_lib.py:101-121 | drawing keeps a valid plotter valid, whatever keys are pressed, or ends the program |
| PlotLib.Plotter.constructor | plot_lib.py:41-53 | the new object is the state `Init` gives |
| PlotLib.Plotter.Read | plot_lib.py:166 | returns the next reading and consumes it |
| PlotLib.Plotter.Now | plot_lib.py:195 | returns the next clock reading and consumes it |
| PlotLib.Plotter.Ongoing | plot_lib.py:196 | the loop goes on exactly while a reading is left and it is less than one second after the start |
| PlotLib.Plotter.Fail | plot_lib.py:163 | the program ends |
| PlotLib.Plotter.DiscoverLabels | plot_lib.py:191-205 | the loop returns the labels `DiscoverLabels` chooses and consumes the same readings and clock |
| PlotLib.Plotter.GetLinesPerType | plot_lib.py:208-219 | the loop returns the width the timed search gives, and only the reader and the clock move |
| PlotLib.Plotter.InitializePlot | plot_lib.py:72-85 | the label gets a ring as wide as its search found, or the program ends |
| PlotLib.Plotter.Start | plot_lib.py:61-62 | the labels are set, the plot runs and the rings are emptied |
| PlotLib.Plotter.InitializePlots | plot_lib.py:65-66 | the loop gives the state `PlotsFrom` gives |
| PlotLib.Plotter.SetUp | plot_lib.py:55-70 | the object ends in the state `SetUp` gives |
| PlotLib.Plotter.CallEach | plot_lib.py:138-139 | the loop makes the call on each ring in key order, and only the rings change |
| PlotLib.Plotter.Press | plot_lib.py:123-163 | the object ends in the state `Press` gives |
| PlotLib.Plotter.PressKeys | plot_lib.py:116 | the keys pressed during the pause act in turn |
| PlotLib.Plotter.GetData | plot_lib.py:165-178 | the object ends in the state `GetData` gives |
| PlotLib.Plotter.UpdatePlotData | plot_lib.py:101-121 | the object ends in the state `UpdatePlotData` gives |

`isCommand` (plotter.py:259-261, plot_lib.py:186-188) is the predicate
`Discovery.IsCommand`. Its meaning is stated by `GetDataCommand` and
`GetDataPrints` in the two state modules.

## Left out

- Rendering is not modelled. That covers:
  - figures, subplots and colours;
  - `set_data`, `set_xlim`/`set_ylim` and the 10% y-padding;
  - `savefig`, `plt.close`;
  - the rcParams set-up.

  These are calls into matplotlib. The `g` key therefore changes nothing
  modelled.
- `plt.pause` is modelled only as the moment at which pressed keys are
  handled. They are given as a list.
- `update` (plotter.py:93-107, plot_lib.py:95-99) is not modelled. It chains
  `getData` and `updatePlotData` under a time throttle. The `dataRate`
  counters feed only a status print that is commented out.
- Printing and `sys.stdout.write` are not modelled.
- The `MissingLabelError` message text is not modelled. Any exception ends
  the program (`halted`), and exception kinds are kept only where a lemma
  names them.
- ring.py is not part of this model. A `ring.Ring` is its width, its length
  and the list of calls made on it (`update`, `looseTail`, `fixTail`,
  `reset`).
- Rings are dictionary values, so no two labels share one. The model does not
  capture aliasing of numpy arrays or of Ring objects.
- Rows are written as whole new values rather than updated in place.
- The readers' transport is modelled as input and output values:
  - `select`, `recv`, `readline`, `sendall` and the serial port;
  - a socket wait is an event (a byte, a timeout or a hang-up);
  - a serial wait is an `Arrival`;
  - an exhausted event list is a timeout;
  - an exhausted `feed` answers `('', [], False)`.
- PipeReader.Call and SerialReader.Call model one pass of their `while True`
  loops. Every path of those loops returns or breaks on its first pass.
- The serial reader's `closeConnection` is not modelled: it only closes the
  port. The pipe reader's `closeConnection` does nothing.
- `write` failures of the pipe and serial readers are not modelled. The pipe
  discards the message.
- PlotterState.Press and PlotLibState.Press: the plotters' `reader.write`
  always succeeds, and `sent` always grows by the command. With a socket
  reader whose connection was closed after a hang-up, `sendall` raises
  OSError, which escapes `press` and ends the program; the plotters do not
  model that. SocketReader.Reader.Write models the OSError itself.
- PlotterState.PressSends, PlotterState.PressCommand, PlotLibState.PressCommand
  and the class methods that send (PlotterObject.Plotter.Send,
  PlotLib.Plotter.Press) rest on that assumption for a closed socket.
- PlotLib.Plotter.DiscoverLabels and PlotLib.Plotter.GetLinesPerType are
  methods of the plotter object here, with the reader and the clock folded
  in. In the source they are module functions that take the reader.
- The clock of plot_lib.py is a list of readings. Once it is used up, time is
  up.
- The subplot position parameter of `initializePlot` is not modelled. It
  only places the axes.
- Floats are exact reals in the model: there is no rounding to binary64 and
  no overflow to infinity.
- Interpretations.FloatOf accepts plain decimal literals: a sign, ASCII
  digits, a point, and an exponent. It does not accept `nan`, `inf`,
  `infinity`, digits grouped with `_`, or the decimal digits of other
  scripts (`float('٣')` is 3.0 and `float('１.５')` is 1.5), all of which
  Python's `float` accepts. The model treats such fields as non-numeric.
- PlotterState.UpdateRestores: the guarantee that drawing keeps the plotter
  valid and the rings intact is proved only for a drawing during which no key
  is pressed. With keys, PlotterState.UpdatePlotData still models every
  branch, including the reset after the labels changed.
- PlotterState.Valid requires each label once. A plotter with a repeated
  label is described by PlotterState.Repeating instead, and what it does is
  proved only for set-up, reset and a drawing with no key pressed
  (PlotterState.SetUpGiven, PlotterState.ResetRepeated,
  PlotterState.UpdateRepeated); the key and reading lemmas assume Valid.
- PlotterState.Valid requires `n >= 1`. With `n == 0` the source divides by
  zero in `getData`, which the model treats as ending the program.

## Findings

| source | as written | input that shows it | evidently intended | confidence | as-written member | corrected member |
|---|---|---|---|---|---|---|
| interpretations.py:22-23 | `toFloat` builds the array and drops it, so every numeric record a reader returns carries None instead of its values | the fields `["1.5"]` of the line `a,1.5` | return the array of converted values | not executed | Interpretations.ToFloatAsWritten, Interpretations.ToFloatLosesValues, Interpretations.OnePointFive | Interpretations.ToFloat, Interpretations.ToFloatAt |

The rest of the model uses the corrected `Interpretations.ToFloat`.
