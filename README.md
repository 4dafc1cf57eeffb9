# Grid stitching and batch transpose: a Dafny model

This project models two desktop tools from a texture-modding workflow.

- **Grid stitching** (`ZZZmodWorkflow/stitchingResult2.0.py`). A dialog sets the grid's rows and columns. The dialog accepts a press of its confirm button only when both texts read as integers of at least 1. If the window is closed without such a press, it yields the default 4 by 4. A run then takes the folder's `.png`/`.jpg`/`.jpeg` names in plain string order and opens the first `rows*cols` of them. A file that `Image.open` refuses becomes a blank, and blanks pad the list to exactly `rows*cols` entries. The canvas is `(cols*w, rows*h)`, where `(w, h)` is the size of the first sorted file. Image `row*cols+col` is pasted at `(col*w, row*h)`. `Image.open` reads only a file's header, and the pixels are read when the file is pasted. So a file that opens but fails to decode ends the run at its paste, with an error and nothing saved. An empty selection, a first file that fails to open, or a failed `Image.new` also ends the run with an error and nothing saved. `Image.new` creates the blank of the first file's size before the load loop, and the canvas after it. The dialog's `int` refuses counts of more than 4300 digits.
- **Batch transpose** (`ZZZmodWorkflow/rotate_images2.0.py`). `main` counts the supported names in the folder and stops when there are none. A worker walks the listing. For each name it queues either `skip`, or `start` followed by exactly one of `success` or `error`. A failing file never stops the batch. The progress window raises the counter named by each message. Its bar advances on `success` and `error` only, so after a full run over an unchanged listing, the bar's value equals its maximum.

Modules:

- `Options` (options.dfy) holds the optional value.
- `Names` (names.dfy) holds the extension test shared by both tools, the selection and count of a listing, and Python's string order. It also has an insertion sort, which is proved to be the only ordered permutation.
- `PyInt` (pyint.dfy) models `int()` on spinbox text.
- `Stitching` (stitching.dfy) holds the grid dialog, the application's grid, the stitching run and the plan lemmas.
- `RotateImages` (rotate.dfy) holds `OPERATIONS`, the worker, the progress window and `main`.

The parts of the source that change state stay imperative:

- The dialog and the application are classes with `modifies` clauses.
- `update_display` is a method on the progress window class.
- The load, padding and paste loops, the worker's loop and the message draining loop are `while` loops with invariants.

Each method is proved against specification functions, such as `Slots`, `Layout` and `BatchMessages`. The lemmas state what the tools promise about those functions.

Inputs the code gets from outside are parameters:

- the listing of a folder;
- `load(name)`, which says whether `Image.open` succeeds and with what size;
- `decodes(name)`, which says whether the pixels of a file that opened can be read when `canvas.paste` needs them;
- `alloc(size)`, which says whether `Image.new` can create an image of that size (it raises `MemoryError` when it cannot);
- `saveOk`, which says whether `canvas.save` succeeds;
- `attempt(op, name)`, which says whether opening, transposing and saving one file succeeds, or which exception text it raises;
- the confirm presses of the grid dialog;
- the combobox position and the folder picker's answer.

The message queues are the sequences the methods return.

Three points of behaviour, as the code has them:

- The cell size comes from the first sorted file, not the first one that opens. If that file fails, the whole run fails.
- Stitching uses plain `sorted`, not a numeric-aware order.
- The transpose tool saves over the source file directly, with no temporary file.

## Model

| member | source | states |
|---|---|---|
| `Stitching.ParseGrid` | ZZZmodWorkflow/stitchingResult2.0.py:99-108 | an accepted press always has rows and cols of at least 1 |
| `Stitching.ParseGridAccepts` | ZZZmodWorkflow/stitchingResult2.0.py:101-105 | any rows, cols of at least 1, each with at most 4300 digits, typed in decimal is accepted unchanged |
| `Stitching.ParseGridRejectsNonPositive` | ZZZmodWorkflow/stitchingResult2.0.py:103-104 | a zero or negative row or column count is refused |
| `Stitching.DialogResult` | ZZZmodWorkflow/stitchingResult2.0.py:85-113 | the grid the dialog ends with always has both counts at least 1 |
| `Stitching.DialogResultFirstAccepted` | ZZZmodWorkflow/stitchingResult2.0.py:99-113 | the first accepted press decides the grid; rejected ones before it change nothing |
| `Stitching.DialogResultNoneAccepted` | ZZZmodWorkflow/stitchingResult2.0.py:85-113 | closing without an accepted press yields the default (4, 4), whatever the grid was before |
| `Stitching.GridDialog.constructor` | ZZZmodWorkflow/stitchingResult2.0.py:85 | the dialog starts open, holding (4, 4) |
| `Stitching.GridDialog.OnConfirm` | ZZZmodWorkflow/stitchingResult2.0.py:99-108 | an accepted press stores the grid and closes; a refused one shows one more error and keeps the old grid and the window |
| `Stitching.StitchingApp.constructor` | ZZZmodWorkflow/stitchingResult2.0.py:42-43 | the application starts with a 4 by 4 grid |
| `Stitching.StitchingApp.SetGrid` | ZZZmodWorkflow/stitchingResult2.0.py:110-114 | rows and cols become the dialog's result, so they stay at least 1; the info message carries them |
| `Stitching.StitchingApp.StitchImages` | ZZZmodWorkflow/stitchingResult2.0.py:136-205 | no kept file, a first file that fails to open, or a blank that cannot be allocated, gives the error message only and nothing saved; a canvas that cannot be allocated gives the load messages and one error, nothing saved; otherwise the log is the load messages, then one paste message per cell up to the first slot that does not decode, then success with the blank count when every cell pasted and the save worked, or else one error with nothing saved; a saved plan has canvas (cols*w, rows*h) with (w, h) from the first file, the padded slots, the row-major layout and the blank count |
| `Stitching.LoadImages` | ZZZmodWorkflow/stitchingResult2.0.py:158-173 | the loops build exactly `Slots`; the counter ends at the failures among the considered files plus the padding; one load message per considered file |
| `Stitching.PasteGrid` | ZZZmodWorkflow/stitchingResult2.0.py:181-189 | an index past the end of the image list is skipped, so the pastes tried are the first min(len(images), rows*cols) of `Layout`, with one message per (row, col) in order; the first slot that does not decode raises out of both loops before its message, so the pastes made stop there and `crashed` is set exactly when that happens within the tried ones; with one image per cell that all decode, the pastes are exactly `Layout` |
| `Stitching.PasteStopsAtUndecodable` | ZZZmodWorkflow/stitchingResult2.0.py:158-187 | the paste loop stops early exactly when a considered file opened but does not decode, and it stops at the first such file; blanks, including those for files that failed to open, never stop it |
| `Stitching.ImageFilesSpec` | ZZZmodWorkflow/stitchingResult2.0.py:140-143 | the kept names are sorted in plain string order and are a permutation of the listing's names with a kept extension; a name is kept iff it is listed and its lower-case form ends in .png, .jpg or .jpeg |
| `Stitching.ImageFilesUnique` | ZZZmodWorkflow/stitchingResult2.0.py:140-143 | any ordered arrangement of the kept names equals the modelled `sorted` result |
| `Stitching.SlotsLength` | ZZZmodWorkflow/stitchingResult2.0.py:158-173 | the padded list has exactly rows*cols entries, whatever the number of files or failures |
| `Stitching.SlotAt` | ZZZmodWorkflow/stitchingResult2.0.py:158-173 | slot k holds the k-th sorted file if it opened and a blank otherwise, and slots past the file list are blank |
| `Stitching.SlotsOnlyConsidered` | ZZZmodWorkflow/stitchingResult2.0.py:158-163 | every loaded slot names one of the first rows*cols sorted files, and that file opened |
| `Stitching.BlankCountIsBlanks` | ZZZmodWorkflow/stitchingResult2.0.py:165-173 | the number of blanks in the list equals the failures among the considered files plus rows*cols minus the number considered |
| `Stitching.TenFilesOnFourByFour` | ZZZmodWorkflow/stitchingResult2.0.py:165-173 | ten files that all open on a 4 by 4 grid give six blanks |
| `Stitching.LayoutAt` | ZZZmodWorkflow/stitchingResult2.0.py:181-187 | grid position (row, col) gets image row*cols+col at (col*w, row*h) |
| `Stitching.LayoutIndices` | ZZZmodWorkflow/stitchingResult2.0.py:181-184 | the k-th paste is image k, so each index below rows*cols is placed exactly once and in order |
| `Stitching.LayoutInside` | ZZZmodWorkflow/stitchingResult2.0.py:176-187 | every cell lies inside the canvas (cols*w, rows*h) |
| `Stitching.LayoutDisjoint` | ZZZmodWorkflow/stitchingResult2.0.py:181-187 | cells of two different pastes share no pixel |
| `Stitching.RowMajor` | ZZZmodWorkflow/stitchingResult2.0.py:183 | row*cols+col divided by cols gives row, and its remainder is col |
| `Names.CaseBlind` | ZZZmodWorkflow/stitchingResult2.0.py:140-143 | two names that agree character by character once lower-cased pass or fail the extension test together, so the test ignores case |
| `Names.LowerIdempotent` | ZZZmodWorkflow/stitchingResult2.0.py:140-143 | lower-casing an already lower-cased name changes nothing |
| `Names.SelectMembership` | ZZZmodWorkflow/stitchingResult2.0.py:140-143 | a name is selected iff it is in the listing and its lower-case form ends with one of the extensions |
| `Names.CountIsSelectLength` | ZZZmodWorkflow/rotate_images2.0.py:203-204 | the count of matching names equals the number of names the selection keeps |
| `Names.SortCorrect` | ZZZmodWorkflow/stitchingResult2.0.py:140 | the modelled `sorted` returns an ordered permutation of its argument |
| `Names.SortedUnique` | ZZZmodWorkflow/stitchingResult2.0.py:140 | two ordered permutations of the same names are equal |
| `Names.LexLeTotal` | ZZZmodWorkflow/stitchingResult2.0.py:140 | any two strings are comparable in string order |
| `Names.LexLeTransitive` | ZZZmodWorkflow/stitchingResult2.0.py:140 | string order is transitive |
| `Names.LexLeAntisymmetric` | ZZZmodWorkflow/stitchingResult2.0.py:140 | strings that are each at most the other are equal |
| `PyInt.IntTextRoundTrip` | ZZZmodWorkflow/stitchingResult2.0.py:101-102 | `int(str(n)) == n` for every integer n of at most 4300 digits; the text of a longer one is refused |
| `PyInt.ParseIntPadded` | ZZZmodWorkflow/stitchingResult2.0.py:101-102 | any text with non-blank ends reads the same with any whitespace added on either side |
| `PyInt.ParseIntBlank` | ZZZmodWorkflow/stitchingResult2.0.py:101-102 | every text made only of whitespace, the empty text included, is refused |
| `PyInt.ParseIntGrouped` | ZZZmodWorkflow/stitchingResult2.0.py:101-102 | a run of digits grouped by single underscores reads the same as the digits without the underscores; it is accepted iff it has at most 4300 digits, underscores not counted |
| `PyInt.ParseIntDoubleUnderscore` | ZZZmodWorkflow/stitchingResult2.0.py:101-102 | any text with two underscores in a row anywhere is refused |
| `PyInt.ParseIntForeignChar` | ZZZmodWorkflow/stitchingResult2.0.py:101-102 | any text holding a character that is not whitespace, a digit, an underscore or a sign (a decimal point, a letter, U+001C) is refused |
| `PyInt.ParseIntRejectsJunk` | ZZZmodWorkflow/stitchingResult2.0.py:101-108 | a character other than a digit or underscore after the sign makes the text invalid |
| `RotateImages.OperationsTable` | ZZZmodWorkflow/rotate_images2.0.py:9-15 | the five keys are distinct and are exactly the keys of OPERATIONS, and every transpose is reachable |
| `RotateImages.SelectOperation` | ZZZmodWorkflow/rotate_images2.0.py:142-163 | a confirmed readonly combobox always yields a non-empty OPERATIONS key; closing yields nothing |
| `RotateImages.FileMessages` | ZZZmodWorkflow/rotate_images2.0.py:170-182 | an unsupported name yields one skip; a supported one yields start and then success iff the transpose worked, error iff it raised |
| `RotateImages.ProcessImages` | ZZZmodWorkflow/rotate_images2.0.py:165-182 | an unknown key queues nothing; otherwise the queue is `BatchMessages` of the listing |
| `RotateImages.BatchMessagesAppend` | ZZZmodWorkflow/rotate_images2.0.py:170-182 | the messages of a concatenated listing are the concatenated messages, in listing order |
| `RotateImages.BatchMessagesAt` | ZZZmodWorkflow/rotate_images2.0.py:176-182 | whatever happens to file k, the queue is the messages before it, its own, then those of every later file |
| `RotateImages.FileMessagesCounts` | ZZZmodWorkflow/rotate_images2.0.py:172-182 | one name gives one skip or one start and one success-or-error |
| `RotateImages.BatchMessagesCounts` | ZZZmodWorkflow/rotate_images2.0.py:170-182 | skips equal the unsupported names; starts, and successes plus errors, equal the supported names |
| `RotateImages.ProcessingWindow.constructor` | ZZZmodWorkflow/rotate_images2.0.py:19-33 | all counters and the bar start at zero, with the maximum at total_files |
| `RotateImages.ProcessingWindow.UpdateDisplay` | ZZZmodWorkflow/rotate_images2.0.py:58-70 | only the counter named by the message goes up; start changes none; the bar advances by one on success or error only; the bar still equals successes plus errors |
| `RotateImages.ProcessingWindow.ProcessMessages` | ZZZmodWorkflow/rotate_images2.0.py:51-56 | applying a queue adds its success, error and skip counts, and adds successes plus errors to the bar |
| `RotateImages.RunBatch` | ZZZmodWorkflow/rotate_images2.0.py:187-219 | a cancelled picker or dialog stops the run; zero supported files stops it before processing; otherwise the bar's maximum is the counted total, its value is successes plus errors, which is the supported names walked, skips are the rest, and over an unchanged listing the value equals the maximum |

## Left out

- Everything in tkinter is left out because it is user interface: windows, message boxes, the polling `after` loop, log text, colours, the status labels, `show_summary`, `copy_summary` and the clipboard.
- The percentage strings of the summary are left out because they are float formatting.
- Threads and `queue.Queue` are left out as concurrency plumbing. Each queue is the sequence the producing method returns, and the window drains it completely.
- PIL is left out because its code is not part of this model. That covers `transpose`, `paste`, `save`, `close` and the pixels of the blank image. Whether a file opens, and whether its pixels then decode, are inputs. The five operations are opaque tags: nothing is claimed about rotation direction or about what repeating an operation does.
- The file system is left out. The listing is an input, and so is the success of each file. A failing `os.listdir` is not modelled.
- `start_stitching`'s checks for a chosen folder and an output path are left out because they are dialog guards.
- `Names.Lower`: only `A`–`Z` are lowered. Python's `str.lower` also lowers other letters. That cannot change the suffix test, because every suffix is lower-case ASCII. Only two non-ASCII characters lower to ASCII. U+212A KELVIN SIGN lowers to `k`, a letter no suffix contains. U+0130 lowers to `i` followed by U+0307 COMBINING DOT ABOVE. That `i` could sit inside `.gif` or `.tiff`, but the combining mark right after it is in no suffix, so the lowered name still fails the test, as the unlowered one does in the model.
- Surrogate-escaped file names: on a POSIX system Python decodes the bytes of an undecodable name to lone surrogates U+DC80–U+DCFF (PEP 383). A Dafny `string` cannot hold a lone surrogate, so `Stitching.ImageFilesSpec`, `Names.SortCorrect` and `RotateImages.BatchMessagesCounts` cover only listings whose names are valid Unicode.
- `PyInt.ParseInt`: decimal digits outside ASCII, which Python's `int` accepts, are refused here. Examples are the full-width digits U+FF10–U+FF19 and the Arabic-Indic digits U+0660–U+0669, so `１２` typed into the grid dialog is refused by the model where Python reads 12. The digit limit is Python's default of 4300. A program or environment that changes it with `sys.set_int_max_str_digits` or `PYTHONINTMAXSTRDIGITS` is not modelled.
- `Stitching.StitchingApp.StitchImages`: copying the blank (`blank_image.copy()`) is assumed to succeed; only the two `Image.new` calls can fail. `load`, `decodes` and `alloc` are functions, so the first file opens the same way both times the code opens it, and decoding reads nothing but the file. Files of other sizes are still placed on the first file's cell grid; what `paste` does with them is not modelled.
- The progress bar's value is a natural number here; in Tk it is a float.
