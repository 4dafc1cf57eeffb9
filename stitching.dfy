/** The grid stitching tool: a dialog that sets the number of rows and
    columns, and a run that lays the images of a folder onto one canvas in
    row-major order, using blank cells for images that fail to load and for
    a folder with too few images.

    Images are abstract: `load(name)` is `Some(size)` when `Image.open`
    succeeds and `None` when it raises. `Image.open` reads only the header;
    `decodes(name)` says whether the pixels of a file that opened can then
    be read when `paste` needs them, and `alloc(size)` whether `Image.new`
    can create an image of that size. Pixels and saving are not modelled;
    the plan records which slot goes where. */
module Stitching {
  import opened Options
  import opened Names
  import opened PyInt

  /** The extensions `stitch_images` keeps. */
  const StitchExtensions: seq<string> := [".png", ".jpg", ".jpeg"]

  /** The grid the application starts with and the dialog preselects. */
  const DefaultRows: int := 4
  const DefaultCols: int := 4

  datatype Size = Size(w: nat, h: nat)

  /** One entry of `images`: a file that opened, or a copy of the blank image. */
  datatype Slot = Loaded(name: string) | Blank

  /** `canvas.paste(images[index], (x, y))`. */
  datatype Placement = Placement(index: nat, x: nat, y: nat)

  /** What a successful run saves: the canvas size, the cell size taken from
      the first file, the padded image list, the pastes in the order they
      happen and the reported number of blanks. */
  datatype Plan = Plan(canvas: Size, cell: Size, slots: seq<Slot>, placements: seq<Placement>, blankCount: nat)

  datatype Outcome = Saved(plan: Plan) | NotSaved

  /** The messages the tool queues for its log. `Pasting` holds the 0-based
      row and column; the log text shows both plus one. */
  datatype Note =
    | GridSet(rows: int, cols: int)
    | LoadedFile(name: string)
    | LoadFailed(name: string)
    | Pasting(row: nat, col: nat)
    | Finished(blankCount: nat)
    | Crashed

  // ---------------------------------------------------------------------
  // The rows/columns dialog

  /** What one press of the confirm button decides: both texts read as
      integers of at least 1, or the press shows an error. */
  function ParseGrid(rowText: string, colText: string): (g: Option<(int, int)>)
    ensures g.Some? ==> g.value.0 >= 1 && g.value.1 >= 1
  {
    match (ParseInt(rowText), ParseInt(colText))
    case (Some(rows), Some(cols)) =>
      if rows < 1 || cols < 1 then None else Some((rows, cols))
    case _ => None
  }

  /** Every positive grid typed in decimal is accepted as it is, as long
      as `int` reads both counts (at most `MaxStrDigits` digits each). */
  lemma ParseGridAccepts(rows: int, cols: int)
    requires rows >= 1 && cols >= 1
    requires WithinStrLimit(rows) && WithinStrLimit(cols)
    ensures ParseGrid(IntText(rows), IntText(cols)) == Some((rows, cols))
  {
    IntTextRoundTrip(rows);
    IntTextRoundTrip(cols);
  }

  /** A zero or negative count is refused, whatever the other one is. */
  lemma ParseGridRejectsNonPositive(rows: int, cols: int)
    requires rows < 1 || cols < 1
    ensures ParseGrid(IntText(rows), IntText(cols)) == None
  {
    IntTextRoundTrip(rows);
    IntTextRoundTrip(cols);
  }

  /** The grid the dialog holds once it is gone, given the confirm presses
      made while it was open (the texts in the two spinboxes at each press):
      the first accepted press, or the default when the window was closed
      without one. */
  function DialogResult(presses: seq<(string, string)>): (g: (int, int))
    ensures g.0 >= 1 && g.1 >= 1
  {
    if |presses| == 0 then (DefaultRows, DefaultCols)
    else match ParseGrid(presses[0].0, presses[0].1)
      case Some(g) => g
      case None => DialogResult(presses[1..])
  }

  /** The press that decides the dialog is the first accepted one. */
  lemma {:induction false} DialogResultFirstAccepted(presses: seq<(string, string)>, k: nat)
    requires k < |presses| && ParseGrid(presses[k].0, presses[k].1).Some?
    requires forall j :: 0 <= j < k ==> ParseGrid(presses[j].0, presses[j].1).None?
    ensures DialogResult(presses) == ParseGrid(presses[k].0, presses[k].1).value
  {
    if k > 0 {
      DialogResultFirstAccepted(presses[1..], k - 1);
    }
  }

  /** Closing the dialog without an accepted press gives the default grid,
      whatever grid the application had before. */
  lemma {:induction false} DialogResultNoneAccepted(presses: seq<(string, string)>)
    requires forall j :: 0 <= j < |presses| ==> ParseGrid(presses[j].0, presses[j].1).None?
    ensures DialogResult(presses) == (DefaultRows, DefaultCols)
  {
    if |presses| > 0 {
      DialogResultNoneAccepted(presses[1..]);
    }
  }

  class GridDialog {
    var gridValues: (int, int)
    var open: bool
    /** How many error boxes the dialog has shown. */
    var errorsShown: nat

    constructor ()
      ensures gridValues == (DefaultRows, DefaultCols) && open && errorsShown == 0
    {
      gridValues := (DefaultRows, DefaultCols);
      open := true;
      errorsShown := 0;
    }

    /** The confirm button: an accepted grid is stored and closes the
        dialog; anything else shows an error and leaves the grid alone. */
    method OnConfirm(rowText: string, colText: string)
      requires open
      modifies this
      ensures ParseGrid(rowText, colText).Some? ==>
                gridValues == ParseGrid(rowText, colText).value && !open && errorsShown == old(errorsShown)
      ensures ParseGrid(rowText, colText).None? ==>
                gridValues == old(gridValues) && open && errorsShown == old(errorsShown) + 1
    {
      var grid := ParseGrid(rowText, colText);
      if grid.Some? {
        gridValues := grid.value;
        open := false;
      } else {
        errorsShown := errorsShown + 1;
      }
    }
  }

  // ---------------------------------------------------------------------
  // The stitching plan

  /** `sorted(f for f in listing if f.lower().endswith(exts))`. */
  function ImageFiles(listing: seq<string>): (r: seq<string>)
    ensures |r| <= |listing|
  {
    Sort(Select(listing, StitchExtensions))
  }

  /** The files the load loop visits before its `break`. */
  function Considered(files: seq<string>, total: nat): (r: seq<string>)
    ensures |r| <= total && |r| <= |files|
    ensures r == files[..|r|]
    ensures |r| == total || |r| == |files|
  {
    if |files| <= total then files else files[..total]
  }

  function SlotOf(name: string, load: string -> Option<Size>): (slot: Slot)
  {
    if load(name).Some? then Loaded(name) else Blank
  }

  /** The `images` list built by the load loop. */
  function LoadSlots(names: seq<string>, load: string -> Option<Size>): (r: seq<Slot>)
  {
    seq(|names|, i requires 0 <= i < |names| => SlotOf(names[i], load))
  }

  function Padding(n: nat): (r: seq<Slot>)
  {
    seq(n, _ => Blank)
  }

  /** The `images` list after padding. */
  function Slots(files: seq<string>, total: nat, load: string -> Option<Size>): (r: seq<Slot>)
  {
    var considered := Considered(files, total);
    LoadSlots(considered, load) + Padding(total - |considered|)
  }

  /** How many of `names` fail to open. */
  function Failures(names: seq<string>, load: string -> Option<Size>): (n: nat)
  {
    if |names| == 0 then 0
    else Failures(names[..|names| - 1], load) + (if load(names[|names| - 1]).None? then 1 else 0)
  }

  function CountBlanks(slots: seq<Slot>): (n: nat)
  {
    if |slots| == 0 then 0
    else CountBlanks(slots[..|slots| - 1]) + (if slots[|slots| - 1].Blank? then 1 else 0)
  }

  function NoteOf(name: string, load: string -> Option<Size>): (note: Note)
  {
    if load(name).Some? then LoadedFile(name) else LoadFailed(name)
  }

  /** The messages of the load loop. */
  function LoadLog(names: seq<string>, load: string -> Option<Size>): (r: seq<Note>)
  {
    seq(|names|, i requires 0 <= i < |names| => NoteOf(names[i], load))
  }

  /** Where the `index`-th image goes on a grid with `cols` columns. */
  function Cell(index: nat, cols: nat, cell: Size): (p: Placement)
    requires cols > 0
  {
    Placement(index, (index % cols) * cell.w, (index / cols) * cell.h)
  }

  /** The first `n` pastes. */
  function LayoutPrefix(n: nat, cols: nat, cell: Size): (r: seq<Placement>)
    requires cols > 0
  {
    seq(n, k requires 0 <= k < n => Cell(k, cols, cell))
  }

  /** Every paste of a `rows` by `cols` grid, in the order the loops make them. */
  function Layout(rows: nat, cols: nat, cell: Size): (r: seq<Placement>)
    requires cols > 0
  {
    LayoutPrefix(rows * cols, cols, cell)
  }

  /** The messages of the first `n` pastes. */
  function PasteLog(n: nat, cols: nat): (r: seq<Note>)
    requires cols > 0
  {
    seq(n, k requires 0 <= k < n => Pasting(k / cols, k % cols))
  }

  /** Whether `canvas.paste` can read a slot: the blank copies always can,
      a file that opened only when its pixels decode. */
  predicate Pastes(slot: Slot, decodes: string -> bool)
  {
    slot.Blank? || decodes(slot.name)
  }

  /** How many slots, from the first, paste before one fails. */
  function PastedCount(slots: seq<Slot>, decodes: string -> bool): (n: nat)
    ensures n <= |slots|
    ensures forall k :: 0 <= k < n ==> Pastes(slots[k], decodes)
    ensures n < |slots| ==> !Pastes(slots[n], decodes)
  {
    if |slots| == 0 || !Pastes(slots[0], decodes) then 0
    else 1 + PastedCount(slots[1..], decodes)
  }

  /** Two cells of size `cell` at `p` and `q` share no pixel. */
  predicate Disjoint(p: Placement, q: Placement, cell: Size)
  {
    p.x + cell.w <= q.x || q.x + cell.w <= p.x || p.y + cell.h <= q.y || q.y + cell.h <= p.y
  }

  /** A cell of size `cell` at `p` lies inside `canvas`. */
  predicate Inside(p: Placement, cell: Size, canvas: Size)
  {
    p.x + cell.w <= canvas.w && p.y + cell.h <= canvas.h
  }

  class StitchingApp {
    var rows: int
    var cols: int

    ghost predicate Valid()
      reads this
    {
      rows >= 1 && cols >= 1
    }

    constructor ()
      ensures Valid() && rows == DefaultRows && cols == DefaultCols
    {
      rows := DefaultRows;
      cols := DefaultCols;
    }

    /** Opens the dialog, replays the confirm presses until one is accepted
        or they run out (the window is then closed), and takes the grid the
        dialog holds; that attribute always exists, so a closed dialog
        yields the default. */
    method SetGrid(presses: seq<(string, string)>) returns (note: Note)
      modifies this
      ensures Valid()
      ensures (rows, cols) == DialogResult(presses)
      ensures note == GridSet(rows, cols)
    {
      var dialog := new GridDialog();
      var k := 0;
      while k < |presses| && dialog.open
        invariant 0 <= k <= |presses|
        invariant dialog.open ==> dialog.gridValues == (DefaultRows, DefaultCols)
        invariant DialogResult(presses) == if dialog.open then DialogResult(presses[k..]) else dialog.gridValues
      {
        assert presses[k..][1..] == presses[k + 1..];
        dialog.OnConfirm(presses[k].0, presses[k].1);
        k := k + 1;
      }
      rows, cols := dialog.gridValues.0, dialog.gridValues.1;
      note := GridSet(rows, cols);
    }

    /** `stitch_images`, given the folder listing, the outcome of opening
        each file, whether each opened file decodes, whether `Image.new`
        can allocate an image of a given size, and whether saving the
        canvas succeeds. Any exception ends the run with one error message
        and nothing saved. */
    method StitchImages(listing: seq<string>, load: string -> Option<Size>, decodes: string -> bool,
                        alloc: Size -> bool, saveOk: bool)
      returns (outcome: Outcome, log: seq<Note>)
      requires Valid()
      // `image_files[0]` raises on an empty list, and so does a first file that fails to open;
      // so does creating the blank of the first file's size
      ensures var files := ImageFiles(listing);
              (|files| == 0 || load(files[0]).None? || !alloc(load(files[0]).value)) ==>
                outcome == NotSaved && log == [Crashed]
      // the canvas is created after the load loop
      ensures var files := ImageFiles(listing);
              |files| > 0 && load(files[0]).Some? && alloc(load(files[0]).value) ==>
                var cell := load(files[0]).value;
                var canvas := Size(cols * cell.w, rows * cell.h);
                var considered := Considered(files, rows * cols);
                !alloc(canvas) ==> outcome == NotSaved && log == LoadLog(considered, load) + [Crashed]
      ensures var files := ImageFiles(listing);
              |files| > 0 && load(files[0]).Some? && alloc(load(files[0]).value) ==>
                var cell := load(files[0]).value;
                var canvas := Size(cols * cell.w, rows * cell.h);
                var considered := Considered(files, rows * cols);
                var slots := Slots(files, rows * cols, load);
                var pasted := PastedCount(slots, decodes);
                var blanks := Failures(considered, load) + (rows * cols - |considered|);
                var done := pasted == rows * cols && saveOk;
                alloc(canvas) ==>
                  && log == LoadLog(considered, load) + PasteLog(pasted, cols)
                            + [if done then Finished(blanks) else Crashed]
                  && outcome == if done then Saved(Plan(canvas, cell, slots, Layout(rows, cols, cell), blanks))
                                else NotSaved
    {
      var files := ImageFiles(listing);
      var totalNeeded: nat := rows * cols;
      if |files| == 0 {
        return NotSaved, [Crashed];
      }
      var first := load(files[0]);
      if first.None? {
        return NotSaved, [Crashed];
      }
      var cell := first.value;
      if !alloc(cell) {
        return NotSaved, [Crashed];
      }
      var images, blankCount, loadLog := LoadImages(files, totalNeeded, load);
      var canvas := Size(cols * cell.w, rows * cell.h);
      if !alloc(canvas) {
        return NotSaved, loadLog + [Crashed];
      }
      var placements, pasteLog, crashed := PasteGrid(rows, cols, cell, images, decodes);
      log := loadLog + pasteLog;
      if crashed || !saveOk {
        return NotSaved, log + [Crashed];
      }
      outcome := Saved(Plan(canvas, cell, images, placements, blankCount));
      log := log + [Finished(blankCount)];
    }
  }

  /** The load loop and the padding loop of `stitch_images`: the first
      `total` files are opened in order, each failure becomes a blank, and
      blanks are added until the list has `total` entries. */
  method LoadImages(files: seq<string>, total: nat, load: string -> Option<Size>)
    returns (images: seq<Slot>, blankCount: nat, log: seq<Note>)
    ensures images == Slots(files, total, load)
    ensures var considered := Considered(files, total);
            && blankCount == Failures(considered, load) + (total - |considered|)
            && log == LoadLog(considered, load)
  {
    images, blankCount, log := [], 0, [];
    var i := 0;
    while i < |files|
      invariant 0 <= i <= |files| && i <= total
      invariant |images| == i && forall k :: 0 <= k < i ==> images[k] == SlotOf(files[k], load)
      invariant |log| == i && forall k :: 0 <= k < i ==> log[k] == NoteOf(files[k], load)
      invariant blankCount == Failures(files[..i], load)
    {
      if i >= total {
        break;
      }
      var filename := files[i];
      if load(filename).Some? {
        images := images + [Loaded(filename)];
        log := log + [LoadedFile(filename)];
      } else {
        images := images + [Blank];
        blankCount := blankCount + 1;
        log := log + [LoadFailed(filename)];
      }
      assert files[..i + 1][..i] == files[..i];
      i := i + 1;
    }
    ghost var considered := Considered(files, total);
    assert files[..i] == considered;
    assert images == LoadSlots(considered, load);
    assert log == LoadLog(considered, load);

    while |images| < total
      invariant |considered| <= |images| <= total
      invariant images == LoadSlots(considered, load) + Padding(|images| - |considered|)
      invariant blankCount == Failures(considered, load) + (|images| - |considered|)
      decreases total - |images|
    {
      assert Padding(|images| - |considered| + 1) == Padding(|images| - |considered|) + [Blank];
      images := images + [Blank];
      blankCount := blankCount + 1;
    }
  }

  function Min(a: nat, b: nat): (m: nat)
    ensures m <= a && m <= b && (m == a || m == b)
  {
    if a <= b then a else b
  }

  /** The nested paste loops of `stitch_images`. An index past the end of
      `images` is skipped; since indices grow one by one, the pastes tried
      are the first `min(len(images), rows*cols)`. The first slot that does
      not decode raises out of both loops (`crashed`), before its message. */
  method PasteGrid(rows: nat, cols: nat, cell: Size, images: seq<Slot>, decodes: string -> bool)
    returns (placements: seq<Placement>, log: seq<Note>, crashed: bool)
    requires cols > 0
    ensures var tried := Min(|images|, rows * cols);
            var made := Min(tried, PastedCount(images, decodes));
            && crashed == (made < tried)
            && placements == LayoutPrefix(made, cols, cell)
            && log == PasteLog(made, cols)
    ensures |images| == rows * cols && PastedCount(images, decodes) == |images| ==>
              !crashed && placements == Layout(rows, cols, cell)
  {
    placements, log, crashed := [], [], false;
    ghost var good := PastedCount(images, decodes);
    var row := 0;
    while row < rows
      invariant 0 <= row <= rows
      invariant Min(|images|, row * cols) <= good
      invariant placements == LayoutPrefix(Min(|images|, row * cols), cols, cell)
      invariant log == PasteLog(Min(|images|, row * cols), cols)
    {
      var col := 0;
      while col < cols
        invariant 0 <= col <= cols
        invariant Min(|images|, row * cols + col) <= good
        invariant placements == LayoutPrefix(Min(|images|, row * cols + col), cols, cell)
        invariant log == PasteLog(Min(|images|, row * cols + col), cols)
      {
        var index := row * cols + col;
        if index >= |images| {
          col := col + 1;
          continue;
        }
        if !Pastes(images[index], decodes) {
          assert index == good;
          assert index < rows * cols by {
            MulLe(row + 1, rows, cols);
          }
          crashed := true;
          return;
        }
        RowMajor(row, col, cols);
        assert LayoutPrefix(index + 1, cols, cell) == LayoutPrefix(index, cols, cell) + [Cell(index, cols, cell)];
        assert PasteLog(index + 1, cols) == PasteLog(index, cols) + [Pasting(row, col)];
        placements := placements + [Placement(index, col * cell.w, row * cell.h)];
        log := log + [Pasting(row, col)];
        col := col + 1;
      }
      assert row * cols + cols == (row + 1) * cols;
      row := row + 1;
    }
  }

  // ---------------------------------------------------------------------
  // Arithmetic of the grid

  lemma MulLe(a: nat, b: nat, w: nat)
    requires a <= b
    ensures a * w <= b * w
  {
    assert b * w == a * w + (b - a) * w;
  }

  /** The nested loops' `row * cols + col` is the row-major index of `(row, col)`. */
  lemma RowMajor(row: nat, col: nat, cols: nat)
    requires col < cols
    ensures (row * cols + col) / cols == row
    ensures (row * cols + col) % cols == col
  {
    var i := row * cols + col;
    var q, r := i / cols, i % cols;
    assert i == q * cols + r;
    if q < row {
      MulLe(q + 1, row, cols);
      assert false;
    } else if q > row {
      MulLe(row + 1, q, cols);
      assert false;
    }
  }

  // ---------------------------------------------------------------------
  // What the plan guarantees

  /** Only names with a kept extension are used, in plain string order, and
      each of them exactly as often as the listing has it. */
  lemma ImageFilesSpec(listing: seq<string>)
    ensures Sorted(ImageFiles(listing))
    ensures multiset(ImageFiles(listing)) == multiset(Select(listing, StitchExtensions))
    ensures forall x :: x in ImageFiles(listing) <==> x in listing && HasExtension(x, StitchExtensions)
  {
    SortCorrect(Select(listing, StitchExtensions));
    forall x ensures x in ImageFiles(listing) <==> x in listing && HasExtension(x, StitchExtensions) {
      SelectMembership(listing, StitchExtensions, x);
      assert x in ImageFiles(listing) <==> x in multiset(ImageFiles(listing));
    }
  }

  /** `sorted` is the one ordered arrangement of the kept names. */
  lemma ImageFilesUnique(listing: seq<string>, arrangement: seq<string>)
    requires Sorted(arrangement)
    requires multiset(arrangement) == multiset(Select(listing, StitchExtensions))
    ensures arrangement == ImageFiles(listing)
  {
    SortCorrect(Select(listing, StitchExtensions));
    SortedUnique(arrangement, ImageFiles(listing));
  }

  /** However many files there are and however many fail, the padded list
      has exactly one entry per cell. */
  lemma SlotsLength(files: seq<string>, total: nat, load: string -> Option<Size>)
    ensures |Slots(files, total, load)| == total
  {
  }

  /** Slot `k` holds the `k`-th sorted file when it opened, and a blank
      otherwise; so files past the first `total` never appear. */
  lemma SlotAt(files: seq<string>, total: nat, load: string -> Option<Size>, k: nat)
    requires k < total
    ensures var slots := Slots(files, total, load);
            |slots| == total &&
            slots[k] == if k < |files| then SlotOf(files[k], load) else Blank
  {
    var considered := Considered(files, total);
    var slots := Slots(files, total, load);
    if k < |considered| {
      assert slots[k] == LoadSlots(considered, load)[k];
    } else {
      assert slots[k] == Padding(total - |considered|)[k - |considered|];
    }
  }

  /** No slot names a file outside the first `total` sorted files. */
  lemma SlotsOnlyConsidered(files: seq<string>, total: nat, load: string -> Option<Size>, name: string)
    requires Loaded(name) in Slots(files, total, load)
    ensures name in Considered(files, total)
    ensures load(name).Some?
  {
    var slots := Slots(files, total, load);
    var k :| 0 <= k < |slots| && slots[k] == Loaded(name);
    SlotAt(files, total, load, k);
    assert files[k] == Considered(files, total)[k];
  }

  /** The paste loop stops early exactly when one of the considered files
      opened but does not decode, and it stops at the first such file; the
      blanks, including those for files that failed to open, always paste. */
  lemma PasteStopsAtUndecodable(files: seq<string>, total: nat, load: string -> Option<Size>, decodes: string -> bool)
    ensures var considered := Considered(files, total);
            var pasted := PastedCount(Slots(files, total, load), decodes);
            && (pasted < total <==>
                  exists k :: 0 <= k < |considered| && load(considered[k]).Some? && !decodes(considered[k]))
            && (pasted < total ==>
                  pasted < |considered| && load(considered[pasted]).Some? && !decodes(considered[pasted]))
            && (forall k :: 0 <= k < pasted && k < |considered| ==>
                  load(considered[k]).None? || decodes(considered[k]))
  {
    var considered := Considered(files, total);
    var slots := Slots(files, total, load);
    var pasted := PastedCount(slots, decodes);
    if pasted < total {
      SlotAt(files, total, load, pasted);
      assert considered[pasted] == files[pasted];
    }
    forall k | 0 <= k < |considered| && load(considered[k]).Some? && !decodes(considered[k])
      ensures pasted <= k
    {
      SlotAt(files, total, load, k);
      assert considered[k] == files[k];
    }
    forall k | 0 <= k < pasted && k < |considered|
      ensures load(considered[k]).None? || decodes(considered[k])
    {
      SlotAt(files, total, load, k);
      assert considered[k] == files[k];
    }
  }

  lemma {:induction false} CountBlanksAppend(a: seq<Slot>, b: seq<Slot>)
    ensures CountBlanks(a + b) == CountBlanks(a) + CountBlanks(b)
    decreases |b|
  {
    if |b| > 0 {
      assert (a + b)[..|a + b| - 1] == a + b[..|b| - 1];
      CountBlanksAppend(a, b[..|b| - 1]);
    } else {
      assert a + b == a;
    }
  }

  lemma {:induction false} LoadSlotsBlanks(names: seq<string>, load: string -> Option<Size>)
    ensures CountBlanks(LoadSlots(names, load)) == Failures(names, load)
    decreases |names|
  {
    if |names| > 0 {
      var init := names[..|names| - 1];
      assert LoadSlots(names, load)[..|names| - 1] == LoadSlots(init, load);
      LoadSlotsBlanks(init, load);
    }
  }

  lemma {:induction false} PaddingBlanks(n: nat)
    ensures CountBlanks(Padding(n)) == n
  {
    if n > 0 {
      assert Padding(n)[..n - 1] == Padding(n - 1);
      PaddingBlanks(n - 1);
    }
  }

  /** The reported blank count is the number of blanks in the list: the
      considered files that failed plus the padding. */
  lemma BlankCountIsBlanks(files: seq<string>, total: nat, load: string -> Option<Size>)
    ensures var considered := Considered(files, total);
            CountBlanks(Slots(files, total, load)) == Failures(considered, load) + (total - |considered|)
  {
    var considered := Considered(files, total);
    CountBlanksAppend(LoadSlots(considered, load), Padding(total - |considered|));
    LoadSlotsBlanks(considered, load);
    PaddingBlanks(total - |considered|);
  }

  lemma {:induction false} FailuresNone(names: seq<string>, load: string -> Option<Size>)
    requires forall k :: 0 <= k < |names| ==> load(names[k]).Some?
    ensures Failures(names, load) == 0
    decreases |names|
  {
    if |names| > 0 {
      FailuresNone(names[..|names| - 1], load);
    }
  }

  /** Ten files that all open, on a 4 by 4 grid: six blanks. */
  lemma TenFilesOnFourByFour(files: seq<string>, load: string -> Option<Size>)
    requires |files| == 10
    requires forall k :: 0 <= k < 10 ==> load(files[k]).Some?
    ensures CountBlanks(Slots(files, 16, load)) == 6
  {
    BlankCountIsBlanks(files, 16, load);
    FailuresNone(files, load);
  }

  /** The paste made for grid position `(row, col)`: index `row*cols+col`
      at pixel `(col*w, row*h)`. */
  lemma LayoutAt(rows: nat, cols: nat, cell: Size, row: nat, col: nat)
    requires row < rows && col < cols
    ensures row * cols + col < |Layout(rows, cols, cell)|
    ensures Layout(rows, cols, cell)[row * cols + col] == Placement(row * cols + col, col * cell.w, row * cell.h)
  {
    RowMajor(row, col, cols);
    MulLe(row + 1, rows, cols);
  }

  /** Paste `k` pastes image `k`: every index below `rows*cols` once, in order. */
  lemma LayoutIndices(rows: nat, cols: nat, cell: Size, k: nat)
    requires cols > 0 && k < rows * cols
    ensures |Layout(rows, cols, cell)| == rows * cols
    ensures Layout(rows, cols, cell)[k].index == k
  {
  }

  /** Every cell lies inside the canvas `(cols*w, rows*h)`. */
  lemma LayoutInside(rows: nat, cols: nat, cell: Size, k: nat)
    requires cols > 0 && k < rows * cols
    ensures Inside(Layout(rows, cols, cell)[k], cell, Size(cols * cell.w, rows * cell.h))
  {
    var row, col := k / cols, k % cols;
    assert k == row * cols + col;
    assert row < rows by {
      if row >= rows {
        MulLe(rows, row, cols);
        assert false;
      }
    }
    MulLe(col + 1, cols, cell.w);
    MulLe(row + 1, rows, cell.h);
  }

  /** A cell that starts at least one cell further along does not overlap. */
  lemma Apart(a: nat, b: nat, w: nat)
    requires a < b
    ensures a * w + w <= b * w
  {
    MulLe(a + 1, b, w);
  }

  /** Two different pastes never overlap. */
  lemma LayoutDisjoint(rows: nat, cols: nat, cell: Size, i: nat, j: nat)
    requires cols > 0 && i < rows * cols && j < rows * cols && i != j
    ensures Disjoint(Layout(rows, cols, cell)[i], Layout(rows, cols, cell)[j], cell)
  {
    var ri, ci := i / cols, i % cols;
    var rj, cj := j / cols, j % cols;
    assert i == ri * cols + ci && j == rj * cols + cj;
    if ci < cj {
      Apart(ci, cj, cell.w);
    } else if cj < ci {
      Apart(cj, ci, cell.w);
    } else if ri < rj {
      Apart(ri, rj, cell.h);
    } else if rj < ri {
      Apart(rj, ri, cell.h);
    }
  }
}
