# A terminal text editor, modelled in Dafny

The editor keeps a document as a table of at most 10000 lines. Each line is a C string
of at most 1023 characters. The document carries a file name and a `modified` flag.
The editor reads key presses from a terminal, decodes escape sequences into key codes
and dispatches each code to an editing action. It paints a window of the document with
a line-number gutter and two status rows, and saves and loads the document as a
newline-separated text file.

This project models the core of the editor:

- the line table of `src/buffer.c`, as a class `Buffer.TextBuffer` over an array of
  lines, with methods proved against pure specification functions (`Inserted`,
  `Removed`, `Split`, `Merged`);
- the file format of `src/fileio.c`, with a save/open round trip;
- the two key decoders of `src/platform.c` (Unix escape sequences and Windows virtual
  keys), the raw-mode flag and the colour codes;
- the terminal flag, key decoder and colour codes of `src/platform_unix.c`;
- the key dispatcher and filename prompt of `src/input.c`;
- the viewport state, painted rows, status rows and cursor placement of `src/tui.c`;
- `utils_trim` of `src/utils.c`, as an in-place method on a character array.

C strings are `seq<char>`. Each line in the table holds no NUL. Helpers for the C
library functions the core relies on live in module `CLib`: `strncpy` truncation,
`strlen` of a NUL-terminated array, `fgets` chunking, `isspace` in the C locale, and
decimal printing with `%*d` and `%-30.30s`. Whether `fopen` succeeds and what the
terminal or console delivers become parameters. Terminal output is modelled as the
text each screen row receives.

Files:

- `wrappers.dfy`: `Option`.
- `clib.dfy`: the C library helpers.
- `keys.dfy`: key codes and `KeyEvent`.
- `buffer.dfy`
- `fileio.dfy`
- `platform.dfy`
- `platform_unix.dfy`
- `input.dfy`
- `tui.dfy`
- `utils.dfy`

## Model

| member | source | states |
|---|---|---|
| Buffer.TextBuffer.constructor | src/buffer.c:3-17 | a new buffer holds one empty line and no file name, and is marked modified because it is filled by an insert |
| Buffer.TextBuffer.InsertLine | src/buffer.c:29-49 | succeeds iff 0 <= index <= line count < MAX_LINES; then the lines are `Inserted(old, index, text)` (text cut to 1023 characters) and the buffer is modified; on failure nothing changes |
| Buffer.TextBuffer.DeleteLine | src/buffer.c:51-66 | succeeds iff the index is a line in use; then the lines are `Removed(old, index)` and the buffer is modified; on failure nothing changes |
| Buffer.TextBuffer.SplitLine | src/buffer.c:68-87 | succeeds iff the line exists and the table has room; then the lines are `Split(old, line, position)`, with the position clamped to the line's length; if the table is full, the line is cut anyway and its tail is lost |
| Buffer.TextBuffer.MergeLine | src/buffer.c:89-107 | succeeds iff there is a next line and the joined length is below 1024 (`CanMerge`); then the lines are `Merged(old, line)` |
| Buffer.TextBuffer.Clear | src/buffer.c:109-119 | afterwards the buffer holds one empty line, no file name, and is not modified |
| Buffer.TextBuffer.GetLine | src/buffer.c:121-126 | returns a line iff the index is in use, and the line is that document line |
| Buffer.TextBuffer.SetLine | src/buffer.c:128-138 | succeeds iff the index is in use; then only that line changes, to the truncated text |
| Buffer.SplitPoint | src/buffer.c:73-76 | the split position never passes the end of the line, and an in-range position is kept |
| Buffer.InsertedShape | src/buffer.c:36-45 | an insert keeps the lines before the index, puts the truncated text at the index and shifts the rest up by one |
| Buffer.RemovedShape | src/buffer.c:56-63 | a delete keeps the lines before the index and shifts the rest down by one |
| Buffer.InsertThenRemove | src/buffer.c:29-66 | deleting the line just inserted restores the document |
| Buffer.SplitThenMerge | src/buffer.c:68-107 | after a split, the halves can always be merged again, and the merge restores the document |
| Buffer.MergeThenSplit | src/buffer.c:68-107 | splitting a merged line at the join restores the document |
| Buffer.InsertedFromShape | src/buffer.c:36-45 | conversely, lines of the shape the shifting loop leaves are exactly the insert |
| Buffer.RemovedFromShape | src/buffer.c:56-63 | conversely, lines of the shape the shifting loop leaves are exactly the delete |
| Buffer.InsertedKeepsLines | src/buffer.c:40-44 | an insert keeps every line NUL-free and within 1023 characters |
| Buffer.RemovedKeepsLines | src/buffer.c:56-63 | a delete keeps every line NUL-free and within 1023 characters |
| Buffer.SplitKeepsLines | src/buffer.c:68-87 | both halves of a split line are NUL-free and within 1023 characters |
| Buffer.MergedKeepsLines | src/buffer.c:89-107 | an allowed merge gives a NUL-free line within 1023 characters |
| FileIO.Serialize | src/fileio.c:13-18 | the saved text is empty iff the document has no lines |
| FileIO.SerializeSnoc | src/fileio.c:13-18 | saving one more line appends that line and a newline |
| FileIO.Chunks | src/fileio.c:59 | every `fgets` chunk holds between 1 and 1023 characters |
| FileIO.StripEol | src/fileio.c:61-67 | the stored line is a NUL-free prefix of its chunk; the `'\n'` and `'\r'` rules are stated by `StripEolOfLine`, `CarriageReturnCutsLastLine` and `StripEolOfCrLfLine` |
| FileIO.Loaded | src/fileio.c:54-76 | opening a file always yields 1 to MAX_LINES valid lines |
| FileIO.LoadedPrefix | src/fileio.c:59-74 | after n chunks the table holds n lines, one per chunk, or the single empty line `buffer_clear` leaves before any chunk |
| FileIO.LongLineIsSplit | src/fileio.c:59 | a line longer than the chunk size is cut at 1023 characters and read as several lines |
| FileIO.CarriageReturnCutsLastLine | src/fileio.c:65-67 | whenever the second-to-last character of a chunk is `'\r'`, the last two characters are cut off, even when the last one is not a newline |
| FileIO.StripEolOfCrLfLine | src/fileio.c:61-67 | a line of a CRLF file, read with its `"\r\n"`, is stored as the line alone |
| FileIO.StripEolOfLine | src/fileio.c:61-67 | a line followed by its newline is stored as that line, unless it ends in `'\r'` |
| FileIO.FirstChunkOfSerialize | src/fileio.c:13-18 | reading saved text gives the first line and its newline as the first chunk |
| FileIO.ChunksOfSerialize | src/fileio.c:13-18 | saved text is read back as one chunk per line |
| FileIO.OpenAfterSave | src/fileio.c:7-82 | opening what was saved gives back the document (1 to MAX_LINES lines, each of at most 1022 characters, that is shorter than `MAX_LINE_LENGTH - 1`, with no newline and not ending in `'\r'`) |
| FileIO.LoadedPrefixStep | src/fileio.c:69-73 | the first chunk replaces the empty line and each later chunk is appended |
| FileIO.OpenStep | src/fileio.c:59-75 | each round of the reading loop either stops with the whole `Loaded` document or moves one chunk and one line along |
| FileIO.StoreLine | src/fileio.c:69-73 | line 0 replaces the empty line, every later line is inserted after the lines read so far |
| FileIO.Save | src/fileio.c:7-25 | when the file opens, writes `Serialize(lines)`, records the truncated file name and clears `modified`; otherwise nothing changes |
| FileIO.Open | src/fileio.c:48-82 | when the file opens, the document becomes `Loaded(content)`, the file name is recorded and `modified` is cleared; a failed open changes nothing |
| Keys.SignedChar | src/platform_unix.c:88 | a byte read into a signed `char` lies in -128..127 and is congruent to the byte modulo 256 |
| Keys.CsiLetterKey | src/platform.c:219-227 | a key is reported iff the letter is one of A, B, C, D, H, F |
| Keys.CsiLetter | src/platform.c:219-227 | inverse of `CsiLetterKey`: every arrow, Home and End has its letter |
| Platform.TildeKey | src/platform.c:230-237 | `ESC [ d ~` names a key iff d is '3', '5' or '6' |
| Platform.GetKeyUnix | src/platform.c:200-252 | returns a key iff a byte is available; no modifier is ever set (the event is zeroed first, lines 155-159); it consumes 1 to 4 bytes |
| Platform.UnixBackspaceBytes | src/platform.c:243-246 | both DEL (127) and Ctrl+H (8) read as Backspace and consume one byte |
| Platform.UnixSequence | src/platform.c:200-252 | every key sequence is 1 to 4 bytes long |
| Platform.UnixRoundTrip | src/platform.c:200-252 | decoding the bytes a terminal sends for a key yields that key and consumes exactly that sequence |
| Platform.UnixKeysHaveSequences | src/platform.c:200-252 | every decoded key has a sequence that produces it |
| Platform.EscapeFallback | src/platform.c:207-241 | ESC is reported iff the input starts with ESC and holds no recognised sequence; the bytes read after it are lost: all of them when fewer than three arrive, four after `ESC [ digit` with a fourth byte, otherwise three |
| Platform.MapVirtualKey | src/platform.c:183-194 | only the nine navigation virtual keys are renamed; every other code passes through; which code each one gets is stated by `MapVirtualKeyRoundTrip` |
| Platform.VirtualKeyOf | src/platform.c:183-192 | the virtual key behind each navigation code; exactly the nine navigation codes have one, and it is a navigation virtual key |
| Platform.MapVirtualKeyRoundTrip | src/platform.c:183-192 | the switch and `VirtualKeyOf` are inverse: VK_UP gives KEY_UP, VK_LEFT gives KEY_LEFT, and so on for all nine |
| Platform.WindowsKey | src/platform.c:169-194 | the key of a delivered record: a character key (virtual key 0x30-0x5A) gives its ASCII character, every other key its virtual key, and the result then goes through the navigation switch |
| Platform.WindowsEvent | src/platform.c:168-172 | the event of a delivered record: its key, with Ctrl, Alt and Shift set from either control-key flag of each kind |
| Platform.GetKeyWindows | src/platform.c:161-198 | returns the first key-down key event; it skips every record before it, and the event carries that record's key and modifier flags |
| Platform.AmpersandReadsAsKeyUp | src/platform.c:175-194 | as written, Shift+7 ('&') is reported as KEY_UP |
| Platform.WindowsKeyCorrected | src/platform.c:175-194 | corrected key of a record: a character key gives its character unrenamed, any other key goes through the navigation switch |
| Platform.CorrectedNavigationOnlyFromNavigationKeys | src/platform.c:175-194 | with the mapping on the virtual key, a navigation code comes only from a navigation key, and character keys give their character |
| Platform.RawModeTerminal.constructor | src/platform.c:10 | raw mode starts disabled, with nothing applied |
| Platform.RawModeTerminal.SetRawMode | src/platform.c:130-139 | the flag becomes `enable`; settings are applied only when the flag changes, so enabling and restoring alternate |
| Platform.RawModeTerminal.Cleanup | src/platform.c:22-28 | disables raw mode, and restores the settings only if raw mode was on |
| Platform.ForegroundCode | src/platform.c:69-72 | the SGR code of a foreground colour: 30 + fg, or 90 + (fg - 8) for the bright colours; its range and inverse are stated by `ForegroundCodeRoundTrip` |
| Platform.ColorOfCode | src/platform.c:63-77 | inverse of the foreground code: only codes 30-37 and 90-97 name a colour |
| Platform.ForegroundCodeRoundTrip | src/platform.c:63-77 | colours 0-7 map to 30-37, colours 8-15 map to 90-97, and the code reads back as the colour |
| Platform.SetColorSequence | src/platform.c:63-77 | the output is an SGR sequence, `ESC [ … m`; its digits are stated by `ColorReadsBack` |
| Platform.ColorReadsBack | src/platform.c:69-74 | the digits between `ESC [` and `m` are the foreground code, and reading them back selects exactly the requested colour |
| Platform.BackgroundIgnored | src/platform.c:63-77 | the Unix branch ignores the background argument |
| PlatformUnix.Terminal.constructor | src/platform_unix.c:12 | the terminal starts uninitialised, with nothing captured |
| PlatformUnix.Terminal.Init | src/platform_unix.c:14-19 | captures the settings only when not yet initialised |
| PlatformUnix.Terminal.Cleanup | src/platform_unix.c:21-26 | restores only when initialised, so captures and restores alternate and every restore has a capture before it |
| PlatformUnix.TildeKey | src/platform_unix.c:108-114 | `ESC [ d ~` names a key iff d is '3', '5', '6', '7' or '8' |
| PlatformUnix.GetKey | src/platform_unix.c:67-124 | returns a key iff the event pointer is non-null and a byte is read; otherwise the event is untouched; no modifier is set; it consumes 1 to 4 bytes |
| PlatformUnix.Sequence | src/platform_unix.c:94-121 | every key sequence is 1 to 4 bytes long |
| PlatformUnix.RoundTrip | src/platform_unix.c:67-124 | decoding a key's byte sequence yields that key and consumes exactly that sequence |
| PlatformUnix.KeysHaveSequences | src/platform_unix.c:67-124 | every decoded key has a sequence |
| PlatformUnix.HomeEndTildeForms | src/platform_unix.c:112-113 | `ESC [ 7 ~` and `ESC [ 8 ~` read as Home and End |
| PlatformUnix.EscapeFallback | src/platform_unix.c:88-121 | ESC is reported iff no recognised sequence follows it; every other byte, 127 included, reads as its signed value |
| PlatformUnix.ColorCodes | src/platform_unix.c:45-50 | the foreground code is always in 30-37; as written, the background code is 40 plus a multiple of 16, up to 152 |
| PlatformUnix.BackgroundCodeOutOfRange | src/platform_unix.c:47-48 | as written, every background except black gets a code outside 40-47 |
| PlatformUnix.RedBackgroundAsWritten | src/platform_unix.c:45-50 | as written, white on red asks for codes 37 and 56 |
| PlatformUnix.ColorCodesCorrected | src/platform_unix.c:45-50 | the corrected codes are 30 + fg mod 8 and 40 + bg mod 8, both in SGR range |
| Input.NewlineSpan | src/input.c:68 | `strcspn` counts the characters before the first newline or NUL |
| Input.ExtendedAction | src/input.c:11-41 | the second code after 224: arrows 72/80/75/77 move the cursor, 71/79 go to line start and end, 73/81 page, 83 deletes, every other code does nothing; `HandleKeyRoundTrip` states the listed codes and `HandleKeyCodesOfAction` the converse, through `HandleKey` |
| Input.TypedFilename | src/input.c:64-71 | the name is a prefix of the typed text that fits the buffer and holds no newline or NUL |
| Input.TypedFilenameOfLine | src/input.c:67-68 | a typed line that fits is the name exactly, and Enter alone gives the empty name |
| Input.GetFilename | src/input.c:64-71 | the buffer holds `TypedFilename` as a C string, and the result says whether it is non-empty |
| Input.HandleKey | src/input.c:8-62 | `running` is cleared exactly on Ctrl+Q, and Quit is the action exactly then |
| Input.KeyCodes | src/input.c:11-61 | no action's codes start with Ctrl+O, since opening a file also needs a typed name |
| Input.HandleKeyRoundTrip | src/input.c:8-62 | pressing an action's codes performs that action |
| Input.HandleKeyActionsHaveCodes | src/input.c:42-61 | the dispatcher never shows help (8 is taken by backspace first), and every action except open has codes |
| Input.HandleKeyCodesOfAction | src/input.c:11-61 | conversely, every action other than open comes only from its own codes, so 224 followed by a code outside the table, and every unlisted key, does nothing |
| Input.OpenOnlyWithName | src/input.c:48-54 | Ctrl+O opens exactly when a non-empty name was typed, and opens that name |
| Input.HandleKeyPrintable | src/input.c:58-61 | codes 32-126 insert themselves, and every code outside the table does nothing |
| Tui.TuiState.constructor | src/tui.c:5-26 | takes the console size and sets two status rows, the cursor and offsets at 0, and a gutter width of 6 |
| Tui.TuiState.HandleResize | src/tui.c:160-174 | the same size changes nothing; a new size is taken, and the cursor column is clamped into the text width |
| Tui.ClampCursorX | src/tui.c:169-172 | the column becomes non-negative and within the text width (or 0), and an in-range column is kept |
| Tui.ClampCursorXIdempotent | src/tui.c:169-172 | clamping twice is clamping once |
| Tui.MaxDisplayLines | src/tui.c:156-158 | the rows left for text are the screen rows minus the status rows; the text area, the status row and the cursor test are all stated against it |
| Tui.Gutter | src/tui.c:68 | the gutter ends in a space, a vertical bar and a space; its number, right-aligned or, for a negative `*` width, left-aligned, is stated by `GutterReadsBack` |
| Tui.GutterReadsBack | src/tui.c:68 | the gutter holds the digits of `i + 1` in a field of `\|line_num_width - 2\|` cells, or wider when the number needs it, then " \| "; the digits are right-aligned when `line_num_width >= 2` and left-aligned for the negative field width below that; they read back as `i + 1` |
| Tui.GutterWidth | src/tui.c:68 | a line number that fits the field gives a gutter of `line_num_width + 1` cells |
| Tui.ShownCount | src/tui.c:72-86 | a row shows nothing when the offset is past the line's end; otherwise it shows the rest of the line, cut to `cols - width - 1` |
| Tui.Visible | src/tui.c:72-86 | the characters shown are the slice of the line from `offset_x` |
| Tui.Padding | src/tui.c:89-92 | corrected padding: the cells still free in a row of `cols` after `used` cells, or none when the row is already full |
| Tui.TextRow | src/tui.c:63-92 | the row is the gutter, the visible text, then padding to the screen width; its length is the sum of the three |
| Tui.TextRowShowsWindow | src/tui.c:63-92 | the row starts with the gutter, then the visible slice of the line, then only spaces |
| Tui.TextRowFillsWidth | src/tui.c:63-92 | with the corrected padding and a gutter of `line_num_width + 1` cells, every text row is exactly `cols` cells wide |
| Tui.TextRowCharacter | src/tui.c:72-86 | the j-th character shown, `line[offset_x + j]`, is painted j cells after the gutter |
| Tui.PaddingAsWritten | src/tui.c:90 | the as-written padding bound is an unsigned 64-bit value |
| Tui.PaddingAsWrittenOverflows | src/tui.c:90 | as written, a short line paints `cols + 1` cells, and a line wider than the screen makes the bound wrap to nearly 2^64 |
| Tui.LineRows | src/tui.c:63-93 | screen row k holds document line `start + k` |
| Tui.BlankRows | src/tui.c:96-101 | the remaining rows are blank |
| Tui.PaintText | src/tui.c:63-101 | a line paint gives that line's text row behind its own gutter, a blank paint gives `cols` spaces; its width is stated by `PaintedRowsFillWidth` |
| Tui.PaintedRows | src/tui.c:51-101 | the rows `tui_draw` paints, lines from `offset_y` then blanks; stated by `PaintedRowsCoverTextArea` |
| Tui.PaintedRowsCoverTextArea | src/tui.c:51-105 | the painted rows cover the text area once, top to bottom: lines from `offset_y` while they last, then blanks |
| Tui.PaintedRowsFillWidth | src/tui.c:51-101 | with the corrected padding and line numbers that fit the gutter, every painted row, text or blank, is exactly `cols` cells wide |
| Tui.StatusInfo | src/tui.c:120-124 | the file-info field is exactly 30 cells wide |
| Tui.StatusText | src/tui.c:120-123 | the status text is a space, the name or "[New File]", a space, and "(modified)" exactly when the buffer is modified |
| Tui.StatusPosition | src/tui.c:127-128 | the cursor position text; its digits are stated by `StatusPositionReadsBack` |
| Tui.DrawStatus | src/tui.c:107-143 | the file-info field is 30 cells wide and sits on the first row below the text area, and the position starts 20 cells from the right edge |
| Tui.StatusShowsFileAndFlag | src/tui.c:120-124 | for names of at most 18 characters, the field shows the name, or "[New File]", and shows "(modified)" iff the buffer is modified |
| Tui.StatusCutsFlag | src/tui.c:120-124 | a name of 19 characters or more leaves no room for the flag: only the first `28 - len` characters of "(modified)" are shown, and from 28 characters on none of it |
| Tui.StatusPositionReadsBack | src/tui.c:127-128 | the position reads `Ln y+1, Col x+1`, and its digits read back as the 1-based cursor |
| Tui.CursorPosition | src/tui.c:145-154 | the cursor is placed iff its line is inside the text area |
| Tui.CursorOnItsRow | src/tui.c:145-154 | the cursor lands on the screen row where its line is painted, in column `cursor_x - offset_x + line_num_width` |
| Tui.CursorLeftOfItsCharacter | src/tui.c:68-86 | the gutter is `line_num_width + 1` cells wide, so the character at the cursor's column is painted one cell to the right of the cursor |
| Tui.CursorCell | src/tui.c:72-86 | the character at the cursor's column is painted `cursor_x - offset_x` cells after the gutter |
| Utils.TrimEnd | src/utils.c:11 | the end of the trimmed text never comes before its start |
| Utils.TrimmedIsSlice | src/utils.c:6-15 | the trimmed text is the string minus its leading and trailing space runs, and is empty or starts and ends with a non-space |
| Utils.TrimmedEmpty | src/utils.c:6-15 | the trimmed text is empty iff the string is all spaces |
| Utils.TrimmedOfTrimmed | src/utils.c:6-15 | trimming leaves alone a string that neither starts nor ends with a space |
| Utils.TrimIdempotent | src/utils.c:6-15 | trimming twice is trimming once |
| Utils.Trim | src/utils.c:6-15 | `utils_trim`: writes a NUL just after the last non-space, changes nothing else, and returns the index of the first non-space; the string there is `Trimmed` of the input |

## Left out

- Terminal and console I/O is left out: termios contents, `ioctl` sizes, `printf` and `fflush`, escape-sequence output, and Windows console modes and attributes. `tui_init` takes the console size as parameters and leaves out its hide-cursor and raw-mode calls.
- Outside the core, these are not part of this model: `src/editor.c`, `src/display.c`, `src/main.c`, `src/file_ops.c`, `utils_file_exists`, `file_save_as`, `file_new`, `file_show_message`, `buffer_destroy` and `tui_cleanup`.
- Input.HandleKey: returns the action instead of calling the editor functions, whose bodies are not modelled.
- Buffer.TextBuffer.constructor: allocation failure (`malloc` or `calloc` returning NULL) and the NULL-buffer guards are not modelled; the buffer always exists. The `malloc` failure in `buffer_insert_line` is not modelled either.
- Buffer.TextBuffer.DeleteLine: nothing stops the document from reaching zero lines, as in the C code.
- Buffer.TextBuffer.SplitLine: requires `position >= 0`. A negative position would copy from before the line, which is undefined behaviour in C; `buffer_split_line` has no caller in the source.
- Input.GetFilename: requires non-empty input. At end of file, `fgets` leaves the buffer unset, and the model does not cover that.
- Input.HandleKey: requires non-empty typed input after Ctrl+O (key 15), for the same reason: the filename prompt at end of file is not modelled.
- FileIO.Save and FileIO.Open: whether `fopen` succeeds is a parameter. The file is a character sequence, and write errors are not modelled.
- FileIO.Save and FileIO.Open: the stored file name is the given name cut to 255 characters. In C, `strncpy` leaves the last byte of the 256-byte field as it was, which is only NUL-terminated if that byte was zero.
- Utils.Trim: characters outside ASCII count as non-space. In C, `isspace` of a negative `char` is undefined behaviour; the C library usually answers "not a space".
- PlatformUnix.GetKey: the follow-up reads of an escape sequence happen after `tcsetattr` has restored the original settings (src/platform_unix.c:81), so in a canonical terminal they wait for a whole line. The model only sees which bytes arrive, not the mode they are read in.
- Platform.GetKeyUnix and PlatformUnix.GetKey: the 100 ms `select`/`VTIME` waits become "the next byte is in the input or not". The timing of reads is not modelled.
- Platform.GetKeyWindows: requires that a key-down event eventually arrives. `ReadConsoleInput` blocks until one does.
- Platform.GetKeyWindows: the record's `AsciiChar` is taken as a byte 0..255, not as a signed `CHAR`.
- Platform.RawModeTerminal.SetRawMode: the Windows branch (src/platform.c:139-152) changes console-mode bits that are not modelled.
- Tui.PaintText: requires a non-negative `offset_x`. The editor never makes it negative.
- Tui.DrawStatus: the colours and the row of spaces behind the status rows are not modelled. The 256-byte `snprintf` cut is applied in `Tui.StatusInfo`.
- Tui.TextRow: uses the corrected padding (see Findings). The row that `tui_draw` paints as written is stated by `Tui.PaddingAsWrittenOverflows`.

## Findings

| source | as written | input that shows it | evidently intended | confidence | as-written member | corrected member |
|---|---|---|---|---|---|---|
| src/tui.c:90 | padding counts `cols - (width + (strlen - offset_x))` spaces in unsigned 64-bit arithmetic, but the gutter is `width + 1` cells wide and only the visible part of the line was printed | line "ab", `cols` 80, offset 0: 7 + 2 + 72 = 81 cells; a 100-character line: the bound wraps to 2^64 - 26 | pad to exactly `cols` cells: `cols` minus what was printed | not executed | Tui.PaddingAsWrittenOverflows | Tui.PaintedRowsFillWidth |
| src/platform_unix.c:47-48 | the background code is `40 + ((bg & 7) << 4)`, a console-attribute shift | red background (1): code 56, outside SGR 40-47 | `40 + (bg & 7)` | not executed | PlatformUnix.RedBackgroundAsWritten | PlatformUnix.ColorCodesCorrected |
| src/platform.c:175-194 | the key is taken from the ASCII character when it is non-zero, and then renamed by the virtual-key switch, so characters whose code equals a navigation virtual key become navigation keys | Shift+7 (virtual key 0x37, character '&' = 0x26 = VK_UP) reads as KEY_UP | apply the switch to the virtual key only | not executed | Platform.AmpersandReadsAsKeyUp | Platform.CorrectedNavigationOnlyFromNavigationKeys |
