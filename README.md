# mrpeek core in Dafny

mrpeek shows a medical image in a terminal. It renders slices as Sixel
graphics, and key presses and mouse reports move through the image. This
project models the parts of mrpeek that can be checked without a terminal.
Each part is proved against a specification.

- **Sixel encoders.** There are two:
  - the image encoder of `src/sixel.cpp`, which handles a last band
    shorter than six rows;
  - the panel-grid encoder of `src/sixel.h`, which uses a byte buffer
    padded to whole bands.

  Both use the same run-length compression. Their colour maps produce the
  palette text: one colour register per level, and the overlay colours.
- **Terminal control helpers** (`src/vt_control.h`, `src/vt_control.cpp`):
  - the control-key mask;
  - the cursor positioning and movement sequences;
  - the decoding of keyboard input into key codes.
- **The viewer's event handling** (`cmd/mrpeek.cpp`):
  - the main callback, which reacts to keys, mouse reports and the idle
    redraw;
  - the number prompt;
  - the axis set-up;
  - the frame and crosshair overlays drawn on a panel.

## Modules

- **`Wrappers`:** the `Option` type.
- **`DecimalText`:** decimal text of integers and how it is read back. The
  source builds it with `str()` and reads it with `to<int>`.
- **`VtControl`:** the key and mouse codes, `Ctrl`, and the cursor escape
  sequences. Each sequence has a parser, and a round trip is proved.
- **`VtInput`:**
  - `Decode` maps the pending input bytes to the event `read_user_input`
    returns.
  - The class `Terminal` reads from a byte queue, one byte per `read`.
  - Lemmas tabulate every escape-sequence branch.
- **`SixelRuns`:**
  - the run-length compressor `add`/`clear`/`commit`, as the class
    `RunBuffer`;
  - its specification `RunLength`, which decodes back to the masks with
    trailing empty columns dropped.
- **`SixelFormat`:**
  - the six-row column masks;
  - the per-colour chunk (`#n<runs>$`) and the band text;
  - a band decoder, with the band round trip.
- **`SixelImage` and `SixelBand`:** the band geometry of the image
  encoder, and the band-encoding loops as methods proved against
  `BandText`.
- **`SixelColourMap`:**
  - the palette definitions (`#n;2;r;g;b`) and their decoder;
  - the template encoder's `ColourMap` with its overlay indices;
  - the image encoder's `CMap` specifier.
- **`SixelEncoder`:** the image `Encoder` of `src/sixel.cpp`, a class over
  a pixel array.
- **`SixelPanels`:** the template `Encoder<gx, gy>` of `src/sixel.h`. It
  covers:
  - the panel grid addressing of `mapxy`, shown to be a bijection onto the
    buffer;
  - setting pixels through `rescale` into a byte;
  - the crosshair, bounding-box and colour-bar overlays;
  - `write`.
- **`ViewerQuery`:** `query_int`'s callback and its event loop.
- **`Viewer`:**
  - `Step` is the viewer callback's transition on a `View`.
  - The class `CallBack` performs that transition in place on its fields.
  - Lemmas cover the invariant (`Wf`), redraws, quitting, mouse drags,
    volume stepping and the arrow modes.
- **`ViewerDraw`:** `draw_frame` and `draw_crosshairs` on a panel held as
  a two-dimensional array, plus the crosshair clamp of `display_image`.

## Model

| member | source | states |
|---|---|---|
| DecimalText.Digits | src/sixel.h:224 | the decimal text of a count is non-empty, all digits, and "0" exactly for zero |
| DecimalText.DigitsNoLeadingZero | src/sixel.h:224 | the decimal text of a positive count never starts with '0' |
| DecimalText.DigitsRoundTrip | src/sixel.h:224 | reading the digits of n gives back n |
| DecimalText.Show | src/vt_control.h:59 | the text of an integer is non-empty, and it is all digits exactly when the integer is not negative |
| DecimalText.ShowRoundTrip | src/vt_control.h:59 | reading the text of any integer gives it back; a negative one is '-' followed by digits |
| DecimalText.ShowSign | src/vt_control.h:59 | the text starts with '-' exactly for negative integers |
| DecimalText.ShowInjective | src/vt_control.h:59 | different integers have different texts |
| DecimalText.ReadShow | src/vt_control.h:59 | a numeric parameter read from the text of n is n |
| DecimalText.ShowAlphabet | src/vt_control.h:59 | the text of an integer holds only digits and '-' |
| VtControl.Ctrl | src/vt_control.h:54 | the control code of a key lies in 0..31 |
| VtControl.CtrlPeriodic | src/vt_control.h:54 | keys 32 apart have the same control code |
| VtControl.CtrlLetters | src/vt_control.h:31-54 | Ctrl of the k-th letter, upper or lower case, is k+1, and Ctrl('C') is the CtrlC constant |
| VtControl.KeyCodesDistinct | src/vt_control.h:33-52 | the named key and mouse codes are pairwise distinct and lie above every byte value; Tab is the byte 9 |
| VtControl.PositionCursorAt | src/vt_control.h:56-61 | the sequence is CSI … 'H' |
| VtControl.PositionCursorAtRoundTrip | src/vt_control.h:56-61 | the row and column are read back from the sequence |
| VtControl.MoveCursor | src/vt_control.h:62-74 | the sequence is CSI n followed by one of A, B, C, D |
| VtControl.MoveCursorRoundTrip | src/vt_control.h:62-74 | the direction and the count are read back from the sequence |
| VtInput.Signed | src/vt_control.cpp:40 | a byte read into a signed char is the byte or the byte minus 256, in -128..127 |
| VtInput.Decode | src/vt_control.cpp:37-92 | no event without input; 1 to 4 bytes consumed; a non-escape byte is returned as a signed char; an escape yields Escape or a named key |
| VtInput.Terminal.constructor | src/vt_control.cpp:42 | the terminal starts with the given pending input |
| VtInput.Terminal.Read | src/vt_control.cpp:42-45 | a read takes the first pending byte, or reports nothing when no input is pending |
| VtInput.Terminal.ReadUserInput | src/vt_control.cpp:37-92 | the event returned and the bytes consumed are those of Decode on the pending input |
| VtInput.PassThrough | src/vt_control.cpp:91 | any byte other than Escape is its own event, and an ASCII byte keeps its value |
| VtInput.LoneEscape | src/vt_control.cpp:48-51 | an escape followed by fewer than two bytes is the Escape key |
| VtInput.CsiTildeTable | src/vt_control.cpp:53-65 | ESC [ d ~ gives Home, Delete, End, PageUp, PageDown, Home, End for d = 1, 3, 4, 5, 6, 7, 8, and Escape for any other digit |
| VtInput.CsiDigitWithoutTilde | src/vt_control.cpp:53-88 | ESC [ digit without a following '~' gives Escape, consuming the bytes read |
| VtInput.CsiLetterTable | src/vt_control.cpp:69-78 | ESC [ A/B/C/D/Z/H/F give Up, Down, Right, Left, ShiftTab, Home, End, and anything else that is not a digit gives Escape |
| VtInput.Ss3AndUnknownIntroducers | src/vt_control.cpp:81-88 | ESC O H and ESC O F give Home and End; every other introducer gives Escape |
| VtInput.KeySequence | src/vt_control.cpp:52-86 | every named key has an escape sequence of 3 or 4 bytes |
| VtInput.KeySequenceRoundTrip | src/vt_control.cpp:52-86 | decoding a key's sequence gives back that key, whatever follows |
| VtInput.NeverMouse | src/vt_control.cpp:42-91 | the decoder never produces a mouse code |
| SixelRuns.SixelChar | src/sixel.h:221-224 | the sixel character of a mask is 63 + mask, within '?'..'~' |
| SixelRuns.RunsOf | src/sixel.h:200-208 | the runs of a mask sequence flatten back to it and start with its first mask |
| SixelRuns.RunsOfMaximal | src/sixel.h:200-208 | consecutive runs have different masks and no run is empty |
| SixelRuns.TrimZeros | src/sixel.h:216-218 | the trimmed masks are a prefix that does not end in an empty mask, and only empty masks were removed |
| SixelRuns.RunLengthAlphabet | src/sixel.h:219-224 | the compressed text is made of sixel characters and '!' counts |
| SixelRuns.ShortRunText | src/sixel.h:220-223 | a run of up to three masks is written as that many copies of its character |
| SixelRuns.ExpandLongRun | src/sixel.h:224 | a '!' count run expands to that many copies of its mask |
| SixelRuns.ExpandTexts | src/sixel.h:219-224 | the text of a list of runs expands to the runs' masks |
| SixelRuns.RunLengthRoundTrip | src/sixel.h:200-226 | decompressing the compressed row gives back the masks without their trailing empty columns |
| SixelRuns.RunsOfSnoc | src/sixel.h:200-207 | adding a mask either lengthens the last run or starts a new run |
| SixelRuns.AddSameMask | src/sixel.h:201-202 | a repeated mask only increments the repeat count |
| SixelRuns.AddNewMask | src/sixel.h:203-207 | a new mask commits the pending run and starts a run of one |
| SixelRuns.RunBuffer.constructor | src/sixel.h:84-85 | a new buffer has nothing added |
| SixelRuns.RunBuffer.Clear | src/sixel.h:210-214 | clearing empties the buffer and forgets the masks added |
| SixelRuns.RunBuffer.Add | src/sixel.h:200-208 | the masks added grow by one and the buffer invariant holds |
| SixelRuns.RunBuffer.Commit | src/sixel.h:216-226 | a commit appends the pending run's text, unless it is the last run and empty; the final commit leaves exactly the compressed row |
| SixelFormat.ColumnBitsAt | src/sixel.cpp:79-89 | bit k of a column's sixel is set exactly when row k of the band exists and has the intensity |
| SixelFormat.ColumnBitsSix | src/sixel.cpp:81-89 | the switch over the band height computes that column value |
| SixelFormat.ColumnMask | src/sixel.cpp:79-89 | every column sixel is a 6-bit mask |
| SixelFormat.ColumnMaskBits | src/sixel.cpp:79-89 | bit k of column x is set exactly when pixel (x, y0+k) has the intensity and k is below the band height |
| SixelFormat.MasksUpTo | src/sixel.cpp:78-91 | the masks of the first columns are 6-bit masks, one per column |
| SixelFormat.RowMasks | src/sixel.cpp:78-91 | a band row has one 6-bit mask per column |
| SixelFormat.RowMasksAt | src/sixel.cpp:78-91 | mask x of the row is the column mask of column x |
| SixelFormat.Colours | src/sixel.cpp:54-63 | colour i gets a chunk exactly when it occurs in the band, and the chunk holds that colour's row masks |
| SixelFormat.BandHasChunks | src/sixel.cpp:54-65 | when some colour up to the maximum occurs in the band, the band has at least one chunk |
| SixelFormat.ChunksEndInReturn | src/sixel.cpp:93 | every chunk sequence ends in '$' |
| SixelFormat.BandEndsInNewLine | src/sixel.cpp:64-65 | every band text ends in '-' |
| SixelFormat.BandTextIsChunks | src/sixel.cpp:50-67 | the band text is the chunks with the final '$' replaced by '-' |
| SixelFormat.ChunkDecode | src/sixel.cpp:93 | a chunk decodes to its colour and its masks without trailing empty columns |
| SixelFormat.ChunksDecode | src/sixel.cpp:54-63 | the chunks decode to the entries of the colours that occur, in increasing order |
| SixelFormat.BandRoundTrip | src/sixel.cpp:50-95 | decoding a band text gives back every colour that occurs with its masks |
| SixelFormat.EntriesOfColours | src/sixel.cpp:54-63 | the decoded colours are strictly increasing and each occurs in the band |
| SixelImage.BandRows | src/sixel.cpp:51 | a band has six rows, or fewer when it is the last |
| SixelImage.BandFits | src/sixel.cpp:51-58 | every band of the image lies inside the pixel buffer |
| SixelImage.RoundUp6 | src/sixel.h:82 | the padded height is the least multiple of six not below the height |
| SixelBand.ColumnSixel | src/sixel.cpp:79-89 | the switch computes the column's mask |
| SixelBand.AddColumn | src/sixel.cpp:78-90 | after column x the run buffer holds the masks of columns 0..x |
| SixelBand.EncodeColour | src/sixel.cpp:73-95 | the text for one colour is its chunk over the band's row masks |
| SixelBand.Scan | src/sixel.cpp:55-62 | the search finds a pixel exactly when the colour occurs in the band |
| SixelBand.EncodeRows | src/sixel.cpp:50-67 | the loop over colours yields the band text |
| SixelColourMap.DefinitionText | src/sixel.cpp:17-20 | a colour definition starts with '#' |
| SixelColourMap.DefinitionRoundTrip | src/sixel.cpp:17-20 | a definition is read back from its text |
| SixelColourMap.LevelDefinitions | src/sixel.cpp:15-21 | one definition per level, at consecutive registers |
| SixelColourMap.PaletteRoundTrip | src/sixel.cpp:15-21 | a palette text decodes back to its definitions |
| SixelColourMap.ColourMap.Rescale | src/sixel.h:43-46 | a rescaled level lies in 0..range; in-range values are kept, values below become 0 and values above become the range |
| SixelColourMap.OverlayIndices | src/sixel.h:35-38 | data levels lie below the crosshair, box and highlight registers, in that order, and the highlight is the maximum |
| SixelColourMap.NewColourMap | src/sixel.h:16-32 | the specifier is the level palette, then the three overlays, then "$\n" |
| SixelColourMap.OverlayTexts | src/sixel.h:29-31 | the overlay texts are the definitions of the crosshair, box and highlight colours |
| SixelColourMap.PaletteIndices | src/sixel.h:21-31 | the colour map defines ncolours+4 registers, numbered 0, 1, 2, … in order |
| SixelColourMap.ColourMapPalette | src/sixel.h:16-32 | the colour map's specifier, without its final "$\n", decodes to registers 0..maximum in order |
| SixelColourMap.Specifier | src/sixel.cpp:10-23 | a map with a negative ID defines nothing; otherwise it defines ncolours+1 levels from its first index |
| SixelColourMap.SpecifierDefinitions | src/sixel.cpp:10-23 | the specifier decodes to ncolours+1 consecutive registers from the map's index |
| SixelEncoder.Encoder.EncodeIntensity | src/sixel.cpp:73-95 | the chunk of one colour over the band's rows, clipped at the image bottom |
| SixelEncoder.Encoder.EncodeBand | src/sixel.cpp:50-67 | the band text at y0 over the rows that exist |
| SixelEncoder.Encoder.Write | src/sixel.cpp:30-43 | sixel start, the palette of the encoder's one colour map, every band from the top, sixel stop, and the line move when the terminal needs it |
| SixelEncoder.EncodeBands | src/sixel.cpp:33-35 | the band loop concatenates the bands 0, 6, 12, … |
| SixelEncoder.EncodeBandAt | src/sixel.cpp:35 | one loop turn appends the band at y |
| SixelPanels.AddressRowMajor | src/sixel.h:155-159 | the address of a panel pixel is its row-major position in the whole grid image |
| SixelPanels.AddressInBuffer | src/sixel.h:155-159 | every address lies inside the padded buffer |
| SixelPanels.CellAtAddress | src/sixel.h:155-159 | the panel and pixel are recovered from the address |
| SixelPanels.AddressCellAt | src/sixel.h:155-159 | every position of the grid image is the address of exactly one panel pixel |
| SixelPanels.AddressInjective | src/sixel.h:155-159 | different panel pixels have different addresses |
| SixelPanels.NextPanel | src/sixel.h:158 | the next panel in a row starts one panel width further |
| SixelPanels.PanelNumbering | src/sixel.h:87-91 | panel k is column k mod gx and row k / gx of the grid |
| SixelPanels.Byte | src/sixel.h:149 | a value stored in the byte buffer lies in 0..255 and keeps values already in range |
| SixelPanels.Quot | src/sixel.h:127 | C++ integer division truncates toward zero |
| SixelPanels.ColourbarLevels | src/sixel.h:119-131 | every colour-bar pixel is the outline colour or a level in 0..range; the bottom inner row is level 0; inside the outline the level never increases going down |
| SixelPanels.Encoder.constructor | src/sixel.h:77-85 | a zeroed buffer padded to whole bands, panel 0 selected |
| SixelPanels.Encoder.SetPanel | src/sixel.h:87-91 | the panel chosen is (k mod gx, k / gx) |
| SixelPanels.Encoder.MapXY | src/sixel.h:155-159 | the address lies in the current panel and maps back to (x, y) |
| SixelPanels.Encoder.Set | src/sixel.h:94-97 | exactly one byte changes, to the rescaled level, which lies in 0..range |
| SixelPanels.Encoder.DrawCrosshairs | src/sixel.h:100-105 | the pixels of the current panel on row y0 or column x0 become the crosshair colour; nothing else changes |
| SixelPanels.Encoder.DrawBoundingbox | src/sixel.h:108-117 | the border pixels of the current panel become the box or highlight colour; nothing else changes |
| SixelPanels.Encoder.DrawColourbar | src/sixel.h:119-132 | the pixels of the current panel inside the bar rectangle get its outline or level colour; nothing else changes |
| SixelPanels.Encoder.EncodeIntensity | src/sixel.h:180-198 | the chunk of one colour over six full rows |
| SixelPanels.Encoder.EncodeBand | src/sixel.h:161-177 | the band text at y0; some colour always occurs, so the last character can be replaced |
| SixelPanels.Encoder.Write | src/sixel.h:135-143 | sixel start, the colour map's specifier, every band of the padded buffer, sixel stop |
| SixelPanels.EncodeBands | src/sixel.h:138-139 | the band loop concatenates the bands 0, 6, 12, … |
| SixelPanels.BandInBuffer | src/sixel.h:82 | every band fits in the padded buffer |
| SixelPanels.BandColoured | src/sixel.h:161-177 | a band whose pixels are all levels of the map has a colour up to the maximum |
| SixelPanels.AllBandsColoured | src/sixel.h:135-143 | every band of such a buffer has a colour to encode |
| ViewerQuery.Edit | cmd/mrpeek.cpp:706-717 | a digit is appended; Backspace removes the last character if there is one; other keys change nothing; the response stays digits |
| ViewerQuery.BackspaceUndoesDigit | cmd/mrpeek.cpp:711-717 | Backspace right after a digit restores the response |
| ViewerQuery.EnteredDigits | cmd/mrpeek.cpp:702-719 | the collected response is always made of digits |
| ViewerQuery.EnteredKeys | cmd/mrpeek.cpp:706-710 | typing digits appends them to the response |
| ViewerQuery.Answer | cmd/mrpeek.cpp:721-727 | a value exactly for a non-empty response; accepted exactly when within [vmin, vmax]; the value's text is the response unless it has leading zeros |
| ViewerQuery.QueryNumber | cmd/mrpeek.cpp:702-727 | typing a number's digits and Return answers that number, accepted exactly when in range |
| ViewerQuery.TypedNumber | cmd/mrpeek.cpp:702-719 | typing a number's digits and Return leaves exactly those digits |
| ViewerQuery.QueryCallBack.constructor | cmd/mrpeek.cpp:701 | the range is stored and the response is empty |
| ViewerQuery.QueryCallBack.Handle | cmd/mrpeek.cpp:702-719 | Return stops the loop and keeps the response; any other event edits it |
| ViewerQuery.QueryCallBack.GetValue | cmd/mrpeek.cpp:721-727 | the answer of the response |
| ViewerQuery.QueryInt | cmd/mrpeek.cpp:691-735 | the prompt answers the digits typed before Return |
| Viewer.SetAxes | cmd/mrpeek.cpp:194-202 | axes exist exactly for slice axes 0..2; the two displayed axes are increasing and, with the slice axis, are 0, 1 and 2 |
| Viewer.Initial | cmd/mrpeek.cpp:906-909 | the start state satisfies the invariant and asks for a redraw; the focus is within 0..size on each spatial axis |
| Viewer.ClampedInRange | cmd/mrpeek.cpp:582-585 | after the clamp each focus entry lies inside the image, and entries already inside are kept |
| Viewer.ClampFocus | cmd/mrpeek.cpp:582-585 | the loop computes the clamped focus |
| Viewer.Display | cmd/mrpeek.cpp:575-622 | the redraw keeps the invariant |
| Viewer.UnwrapDelta | cmd/mrpeek.cpp:770-773 | the corrected movement differs from the reported one by a multiple of 256, and lies in -127..128 |
| Viewer.ButtonStep | cmd/mrpeek.cpp:775-790 | every button case keeps the invariant |
| Viewer.MouseStep | cmd/mrpeek.cpp:764-794 | a mouse report keeps the invariant and remembers the new mouse position |
| Viewer.VolumeBack | cmd/mrpeek.cpp:814-817 | the volume index stays inside its axis |
| Viewer.VolumeForward | cmd/mrpeek.cpp:824-827 | the volume index stays inside its axis |
| Viewer.VolumeRoundTrip | cmd/mrpeek.cpp:812-830 | Right then Left, and Left then Right, restore the position |
| Viewer.VolumeSteps | cmd/mrpeek.cpp:812-830 | Right gives (i+1) mod size and Left gives (i-1+size) mod size |
| Viewer.ArrowStep | cmd/mrpeek.cpp:798-831 | the arrow keys keep the invariant in every arrow mode |
| Viewer.NextVolAxis | cmd/mrpeek.cpp:833 | the next volume axis lies in 3..ndim-1 |
| Viewer.VolAxisCycle | cmd/mrpeek.cpp:833 | 'v' steps through 3, 4, …, ndim-1 and back to 3 |
| Viewer.Reset | cmd/mrpeek.cpp:840-841 | the displayed and slice axes go to the middle; nothing else changes |
| Viewer.ResetAsWritten | cmd/mrpeek.cpp:840-841 | as written, the y axis focus is unchanged unless y is also the x or slice axis |
| Viewer.ResetMissesY | cmd/mrpeek.cpp:840-841 | a concrete state where the code as written leaves y at 0 and the corrected reset gives the middle |
| Viewer.SwitchStep | cmd/mrpeek.cpp:832-847 | the display switches keep the arrow-mode invariant |
| Viewer.PromptStep | cmd/mrpeek.cpp:849-859 | the prompts leave the arrow modes alone |
| Viewer.ControlStep | cmd/mrpeek.cpp:832-869 | switches and prompts keep the arrow-mode invariant |
| Viewer.KeyStep | cmd/mrpeek.cpp:797-876 | every key other than 'q' keeps the invariant; 'r' is the corrected reset |
| Viewer.Step | cmd/mrpeek.cpp:747-880 | every event keeps the invariant; 'r' is the corrected reset |
| Viewer.OnlyQuitStops | cmd/mrpeek.cpp:761-762 | the loop stops exactly on 'q' |
| Viewer.UpdateRequested | cmd/mrpeek.cpp:750-875 | the idle event redraws only on request and clears it; mouse reports and view keys request a redraw; unknown keys change nothing else |
| Viewer.RedrawClampsFocus | cmd/mrpeek.cpp:580-588 | after a redraw the focus is inside the image, the axes match the slice axis and the scaling is set |
| Viewer.RedrawAxes | cmd/mrpeek.cpp:575-622 | a redraw sets the axes from the slice axis exactly when the image or the plot is shown (`plot` starts with `set_axes`); with the image hidden the focus and scaling are kept; with neither shown only the request is cleared |
| Viewer.HiddenImagePlotAxes | cmd/mrpeek.cpp:369-371 | with the image hidden and the plot on, a redraw after a change of slice axis makes Up in crosshair mode move the new y axis |
| Viewer.ArrowModeToggles | cmd/mrpeek.cpp:845-847 | 'x' flips between slice and crosshair control; 'b' toggles colour control, and 'b' twice restores the controls |
| Viewer.DragMovesFocus | cmd/mrpeek.cpp:770-785 | a left drag moves the focus against the movement, by at most half a turn, congruent to the reported move modulo 256 |
| Viewer.CallBack.constructor | cmd/mrpeek.cpp:745 | the mouse starts at (0, 0) with a redraw requested |
| Viewer.CallBack.Handle | cmd/mrpeek.cpp:747-880 | the new fields and the result are exactly Step of the old fields |
| Viewer.CallBack.Redraw | cmd/mrpeek.cpp:575-622 | the fields become Display of the old fields |
| Viewer.CallBack.HandleMouse | cmd/mrpeek.cpp:764-794 | the fields become MouseStep of the old fields |
| Viewer.CallBack.HandleButton | cmd/mrpeek.cpp:775-790 | the fields become ButtonStep of the old fields |
| Viewer.CallBack.HandleArrow | cmd/mrpeek.cpp:798-831 | the fields become ArrowStep of the old fields |
| Viewer.CallBack.HandleKey | cmd/mrpeek.cpp:797-876 | the fields become KeyStep of the old fields |
| Viewer.CallBack.HandleControl | cmd/mrpeek.cpp:832-869 | only the display switches change, as ControlStep says |
| Viewer.CallBack.Query | cmd/mrpeek.cpp:849-859 | the prompts' effect is PromptStep |
| Viewer.CallBack.Switch | cmd/mrpeek.cpp:832-847 | the switches' effect is SwitchStep |
| ViewerDraw.DrawFrame | cmd/mrpeek.cpp:300-306 | the outermost rows and columns take the colour; every other cell is unchanged |
| ViewerDraw.DrawCrosshairs | cmd/mrpeek.cpp:315-320 | the row y0 and column x0 take the colour; every other cell is unchanged |
| ViewerDraw.CrosshairClamp | cmd/mrpeek.cpp:525-526 | the crosshair coordinate lies inside the slice and is kept when already inside |
| ViewerDraw.CentredCrosshairInPanel | cmd/mrpeek.cpp:515-527 | the recentred crosshair row lies inside the slice and the panel |

## Left out

- **Floating point.**
  - The zoom is modelled as a count of ×1.1 steps.
  - Each brightness/contrast update (`update_scaling`) is logged as an
    integer pair.
  - `autoscale` and the percentile computation only set the scaling.
  - `rescale` starts from the rounded integer value.
  - The colour map function (`basic_mapping`) is an abstract `colour`
    parameter that gives the rounded RGB triple of each level.
- **Screen output.**
  - All writes to standard output, clearing the screen and `show_help`
    are left out.
  - The text and plot panels of `display`, the resampling and geometry of
    `display_image`/`display_slice`, and `plot` are left out.
  - `display` and `plot` are modelled only for the state they change: the
    displayed axes, the clamped focus and the intensity scaling.
- **Terminal probes.**
  - `test_need_newline_after_sixel` and `Sixel::init` ask the terminal
    whether a newline follows a sixel image. In the model the answer is
    the `newline` parameter of `SixelEncoder.Encoder.Write`.
  - `get_cursor_position`, `get_terminal_size` and raw mode are left out.
- **Terminal input and the event loop.**
  - The `EAGAIN` retry and the read error in `read_user_input` are left
    out: the input is a finite byte queue.
  - `EventLoop` and the decoding of mouse reports are left out.
  - The viewer's events carry the decoded button, modifier and position.
  - The prompt's key events are a parameter (`typed`).
  - The two-argument `read_user_input` declared in `src/vt_control.h` has
    no definition in these files.
- **The `ViewPort` class** is not part of this model. A panel of
  `draw_frame`/`draw_crosshairs` is a two-dimensional array.
- **Declarations not in these files.** The declarations of the image
  `Encoder` and `CMap` used by `src/sixel.cpp` are not part of these files.
  Their fields are modelled from their uses.
- **Integer width.** `to<int>` overflow and 32-bit wrap-around are not
  modelled: integers are unbounded. The byte buffer of `src/sixel.h` is
  modelled by `SixelPanels.Byte`.
- SixelEncoder.Encoder.EncodeBand: requires that some colour up to the
  maximum occurs in the band. Otherwise the source writes through
  `out.back()` of an empty string, which is undefined behaviour.
- SixelPanels.Encoder.SetPanel: takes a natural k. The source only asserts
  `k < gx*gy` and would compute a negative panel for a negative k.
- SixelPanels.Encoder.DrawBoundingbox: requires that the panel width and
  height are both zero or both positive. With one of them 0 the source
  writes outside the panel.
- **Command-line options.** Viewer.Initial does not model the `-focus`,
  `-zoom`, `-levels` and other options beyond the fields of
  `CommandLine`. It does not model the initial autoscale either.
- Viewer.CallBack.HandleKey: performs the corrected 'r' reset (see
  Findings), not the reset as written in cmd/mrpeek.cpp:840-841.
- Viewer.KeyStep: 'r' is the corrected `Reset`, not `ResetAsWritten`
  (see Findings).
- Viewer.Step: inherits the corrected 'r' reset of Viewer.KeyStep.
- Viewer.CallBack.Handle: inherits the corrected 'r' reset of
  Viewer.KeyStep.
- SixelEncoder.Encoder.Write: the palette comes from one colour map.
  Every image encoder in cmd/mrpeek.cpp (lines 402, 506 and 546) is built
  from a `ColourMaps` collection: `colourmaps` holds `STATIC_CMAP` and the
  user's map (lines 923-924), `plot_cmaps` holds `STATIC_CMAP`. The
  collection's `specifier()` and `maximum()` (src/sixel.cpp:31 and 54) are
  not declared in these files. The model therefore writes the specifier of
  one `CMap` and takes the largest colour index as the free field
  `maximum` of that `CMap`. It does not state how the collection joins the
  specifiers of its maps or numbers their registers.
- SixelPanels.Encoder.EncodeBand: requires a panel width above zero when
  there are rows. With a zero width `encode (y0)` finds no colour, its text
  stays empty, and the source would replace the last character of that
  empty string through `out.back()`, which is undefined behaviour.
- SixelPanels.Encoder.Write: requires a panel width above zero when there
  are rows, for the reason given for SixelPanels.Encoder.EncodeBand.
- ViewerQuery.QueryCallBack.Handle: stops at the key event 13, a carriage
  return. In cmd/mrpeek.cpp:704 the test is `event == CarriageReturn`, but
  src/vt_control.h:15 declares `CarriageReturn` as the string "\r", not a
  character. Comparing an `int` with a pointer is ill-formed C++; if a
  compiler accepted it, the test would compare against an address and would
  never hold. The model reads the test as a comparison with the one byte of
  that string (`VtControl.CarriageReturn`).
- ViewerQuery.Entered: stops at the key event 13, as
  ViewerQuery.QueryCallBack.Handle does.
- ViewerQuery.QueryInt: stops at the key event 13, as
  ViewerQuery.QueryCallBack.Handle does.
- ViewerQuery.QueryNumber: Return is the key event 13, as in
  ViewerQuery.QueryCallBack.Handle.
- ViewerQuery.TypedNumber: Return is the key event 13, as in
  ViewerQuery.QueryCallBack.Handle.
- Viewer.Prompt: the prompts of 'l' and 'p' stop at the key event 13, as
  ViewerQuery.QueryCallBack.Handle does.

## Findings

| source | as written | input that shows it | evidently intended | confidence | as-written member | corrected member |
|---|---|---|---|---|---|---|
| cmd/mrpeek.cpp:840-841 | 'r' assigns the middle of the x axis to `focus[x_axis]` twice, and never resets the y axis | 10×10×10 image, axial view (slice axis 2, x axis 0, y axis 1), focus (0,0,0): 'r' gives (5,0,5) | the second assignment resets `focus[y_axis]`, giving (5,5,5) | not executed | Viewer.ResetAsWritten, Viewer.ResetMissesY | Viewer.Reset |
