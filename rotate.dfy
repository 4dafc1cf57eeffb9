/** The batch rotate/flip tool: a worker that walks a folder listing and
    queues one message per step, and a progress window whose counters
    follow those messages.

    The transpose of one file is abstract: `attempt(op, name)` says whether
    opening, transposing and saving the file succeeded or which exception
    text it raised. The five operations are opaque tags. */
module RotateImages {
  import opened Options
  import opened Names

  datatype Transpose = Rotate90 | Rotate180 | Rotate270 | FlipLeftRight | FlipTopBottom

  /** The keys of `OPERATIONS`, in the order the combobox lists them. */
  const OperationKeys: seq<string> := ["顺时针旋转90°", "顺时针旋转180°", "顺时针旋转270°", "水平翻转", "垂直翻转"]

  /** `OPERATIONS`: each label and the transpose it selects. */
  const Operations: map<string, Transpose> := map[
    "顺时针旋转90°" := Rotate90,
    "顺时针旋转180°" := Rotate180,
    "顺时针旋转270°" := Rotate270,
    "水平翻转" := FlipLeftRight,
    "垂直翻转" := FlipTopBottom
  ]

  /** The extensions the worker and `main` treat as images. */
  const SupportedExtensions: seq<string> := [".jpg", ".jpeg", ".png", ".bmp", ".gif", ".tiff", ".webp"]

  predicate IsSupported(name: string)
  {
    HasExtension(name, SupportedExtensions)
  }

  /** The five keys are distinct and are exactly the keys of `OPERATIONS`,
      which maps them onto the five transposes one to one. */
  lemma OperationsTable()
    ensures |OperationKeys| == 5
    ensures forall i, j :: 0 <= i < j < 5 ==> OperationKeys[i] != OperationKeys[j]
    ensures forall key :: key in Operations <==> key in OperationKeys
    ensures forall t: Transpose :: t in Operations.Values
  {
    forall t: Transpose ensures t in Operations.Values {
      match t
      case Rotate90 => assert Operations[OperationKeys[0]] == t;
      case Rotate180 => assert Operations[OperationKeys[1]] == t;
      case Rotate270 => assert Operations[OperationKeys[2]] == t;
      case FlipLeftRight => assert Operations[OperationKeys[3]] == t;
      case FlipTopBottom => assert Operations[OperationKeys[4]] == t;
    }
  }

  /** `select_operation`: the readonly combobox offers only the keys, so the
      dialog yields the key at the chosen position, or `None` when it was
      closed without confirming. */
  function SelectOperation(choice: Option<nat>): (key: Option<string>)
    requires choice.Some? ==> choice.value < |OperationKeys|
    ensures key.Some? <==> choice.Some?
    ensures key.Some? ==> key.value in Operations && key.value != ""
  {
    match choice
    case None => None
    case Some(i) => Some(OperationKeys[i])
  }

  datatype MsgType = Start | Success | Skip | Error

  /** A `(msg_type, filename, details)` queue entry. */
  datatype Msg = Msg(kind: MsgType, filename: string, details: string)

  /** What happened to one supported file. */
  datatype Attempt = Transposed | Raised(details: string)

  /** The messages for one name of the listing. */
  function FileMessages(name: string, op: Transpose, attempt: (Transpose, string) -> Attempt): (r: seq<Msg>)
    ensures !IsSupported(name) ==> r == [Msg(Skip, name, "")]
    ensures IsSupported(name) ==>
              && |r| == 2 && r[0] == Msg(Start, name, "")
              && r[1].filename == name
              && (r[1].kind == Success <==> attempt(op, name).Transposed?)
              && (r[1].kind == Error <==> attempt(op, name).Raised?)
  {
    if !IsSupported(name) then [Msg(Skip, name, "")]
    else
      match attempt(op, name)
      case Transposed => [Msg(Start, name, ""), Msg(Success, name, "")]
      case Raised(details) => [Msg(Start, name, ""), Msg(Error, name, details)]
  }

  /** Everything the worker queues for `listing`. */
  function BatchMessages(listing: seq<string>, op: Transpose, attempt: (Transpose, string) -> Attempt): (r: seq<Msg>)
  {
    if |listing| == 0 then []
    else BatchMessages(listing[..|listing| - 1], op, attempt) + FileMessages(listing[|listing| - 1], op, attempt)
  }

  /** `process_images`. A key outside `OPERATIONS` makes the lookup raise
      before anything is queued. */
  method ProcessImages(listing: seq<string>, operation: string, attempt: (Transpose, string) -> Attempt)
    returns (queue: seq<Msg>)
    ensures operation !in Operations ==> queue == []
    ensures operation in Operations ==> queue == BatchMessages(listing, Operations[operation], attempt)
  {
    queue := [];
    if operation !in Operations {
      return;
    }
    var op := Operations[operation];
    var i := 0;
    while i < |listing|
      invariant 0 <= i <= |listing|
      invariant queue == BatchMessages(listing[..i], op, attempt)
    {
      var filename := listing[i];
      assert listing[..i + 1][..i] == listing[..i];
      if !IsSupported(filename) {
        queue := queue + [Msg(Skip, filename, "")];
        i := i + 1;
        continue;
      }
      queue := queue + [Msg(Start, filename, "")];
      match attempt(op, filename) {
        case Transposed =>
          queue := queue + [Msg(Success, filename, "")];
        case Raised(details) =>
          queue := queue + [Msg(Error, filename, details)];
      }
      i := i + 1;
    }
    assert listing[..i] == listing;
  }

  /** The messages of a concatenated listing are the concatenated messages:
      they follow listing order, and no file's outcome affects the rest. */
  lemma {:induction false} BatchMessagesAppend(a: seq<string>, b: seq<string>, op: Transpose, attempt: (Transpose, string) -> Attempt)
    ensures BatchMessages(a + b, op, attempt) == BatchMessages(a, op, attempt) + BatchMessages(b, op, attempt)
    decreases |b|
  {
    if |b| == 0 {
      assert a + b == a;
    } else {
      var init := b[..|b| - 1];
      assert (a + b)[..|a + b| - 1] == a + init;
      assert (a + b)[|a + b| - 1] == b[|b| - 1];
      BatchMessagesAppend(a, init, op, attempt);
    }
  }

  /** Whatever happens to file `k`, the files after it are still processed:
      the queue is the messages before it, its own, and those after it. */
  lemma BatchMessagesAt(listing: seq<string>, op: Transpose, attempt: (Transpose, string) -> Attempt, k: nat)
    requires k < |listing|
    ensures BatchMessages(listing, op, attempt) ==
              BatchMessages(listing[..k], op, attempt)
              + FileMessages(listing[k], op, attempt)
              + BatchMessages(listing[k + 1..], op, attempt)
  {
    assert listing == listing[..k] + [listing[k]] + listing[k + 1..];
    BatchMessagesAppend(listing[..k] + [listing[k]], listing[k + 1..], op, attempt);
    BatchMessagesAppend(listing[..k], [listing[k]], op, attempt);
    assert BatchMessages([listing[k]], op, attempt) == FileMessages(listing[k], op, attempt) by {
      assert [listing[k]][..0] == [];
    }
  }

  function CountKind(queue: seq<Msg>, kind: MsgType): (n: nat)
    ensures n <= |queue|
  {
    if |queue| == 0 then 0
    else CountKind(queue[..|queue| - 1], kind) + (if queue[|queue| - 1].kind == kind then 1 else 0)
  }

  lemma {:induction false} CountKindAppend(a: seq<Msg>, b: seq<Msg>, kind: MsgType)
    ensures CountKind(a + b, kind) == CountKind(a, kind) + CountKind(b, kind)
    decreases |b|
  {
    if |b| == 0 {
      assert a + b == a;
    } else {
      assert (a + b)[..|a + b| - 1] == a + b[..|b| - 1];
      CountKindAppend(a, b[..|b| - 1], kind);
    }
  }

  lemma FileMessagesCounts(name: string, op: Transpose, attempt: (Transpose, string) -> Attempt)
    ensures var m := FileMessages(name, op, attempt);
            var s := if IsSupported(name) then 1 else 0;
            && CountKind(m, Skip) == 1 - s
            && CountKind(m, Start) == s
            && CountKind(m, Success) + CountKind(m, Error) == s
  {
    var m := FileMessages(name, op, attempt);
    if IsSupported(name) {
      assert m[..1] == [m[0]] && [m[0]][..0] == [];
      forall kind ensures CountKind(m, kind) == (if m[0].kind == kind then 1 else 0) + (if m[1].kind == kind then 1 else 0) {
        assert CountKind([m[0]], kind) == (if m[0].kind == kind then 1 else 0);
      }
    } else {
      assert m[..0] == [];
    }
  }

  /** One `skip` per unsupported name, one `start` per supported name, and
      one `success` or `error` per supported name. */
  lemma {:induction false} BatchMessagesCounts(listing: seq<string>, op: Transpose, attempt: (Transpose, string) -> Attempt)
    ensures var q := BatchMessages(listing, op, attempt);
            var n := CountSelected(listing, SupportedExtensions);
            && CountKind(q, Skip) == |listing| - n
            && CountKind(q, Start) == n
            && CountKind(q, Success) + CountKind(q, Error) == n
    decreases |listing|
  {
    if |listing| > 0 {
      var init, last := listing[..|listing| - 1], listing[|listing| - 1];
      BatchMessagesCounts(init, op, attempt);
      FileMessagesCounts(last, op, attempt);
      var q0, m := BatchMessages(init, op, attempt), FileMessages(last, op, attempt);
      CountKindAppend(q0, m, Skip);
      CountKindAppend(q0, m, Start);
      CountKindAppend(q0, m, Success);
      CountKindAppend(q0, m, Error);
      assert listing == init + [last];
      CountSelectedAppend(init, [last], SupportedExtensions);
      assert [last][1..] == [];
    }
  }

  /** The progress window's counters. */
  class ProcessingWindow {
    var successCount: nat
    var errorCount: nat
    var skipCount: nat
    var progressValue: nat
    var progressMaximum: nat

    /** The bar counts finished files: successes and errors. */
    ghost predicate Valid()
      reads this
    {
      progressValue == successCount + errorCount
    }

    constructor (totalFiles: nat)
      ensures Valid()
      ensures successCount == 0 && errorCount == 0 && skipCount == 0
      ensures progressValue == 0 && progressMaximum == totalFiles
    {
      successCount, errorCount, skipCount := 0, 0, 0;
      progressValue, progressMaximum := 0, totalFiles;
    }

    /** `update_display`: the counter named by the message type goes up,
        `start` changes no counter, and the bar advances on `success` and
        `error` only. */
    method UpdateDisplay(m: Msg)
      modifies this
      ensures successCount == old(successCount) + (if m.kind == Success then 1 else 0)
      ensures errorCount == old(errorCount) + (if m.kind == Error then 1 else 0)
      ensures skipCount == old(skipCount) + (if m.kind == Skip then 1 else 0)
      ensures progressValue == old(progressValue) + (if m.kind == Success || m.kind == Error then 1 else 0)
      ensures progressMaximum == old(progressMaximum)
      ensures old(Valid()) ==> Valid()
    {
      if m.kind == Success {
        successCount := successCount + 1;
      } else if m.kind == Error {
        errorCount := errorCount + 1;
      } else if m.kind == Skip {
        skipCount := skipCount + 1;
      }
      if m.kind == Success || m.kind == Error {
        progressValue := progressValue + 1;
      }
    }

    /** `process_messages`, run until the queue is empty. */
    method ProcessMessages(queue: seq<Msg>)
      modifies this
      ensures successCount == old(successCount) + CountKind(queue, Success)
      ensures errorCount == old(errorCount) + CountKind(queue, Error)
      ensures skipCount == old(skipCount) + CountKind(queue, Skip)
      ensures progressValue == old(progressValue) + CountKind(queue, Success) + CountKind(queue, Error)
      ensures progressMaximum == old(progressMaximum)
      ensures old(Valid()) ==> Valid()
    {
      var i := 0;
      while i < |queue|
        invariant 0 <= i <= |queue|
        invariant successCount == old(successCount) + CountKind(queue[..i], Success)
        invariant errorCount == old(errorCount) + CountKind(queue[..i], Error)
        invariant skipCount == old(skipCount) + CountKind(queue[..i], Skip)
        invariant progressValue == old(progressValue) + CountKind(queue[..i], Success) + CountKind(queue[..i], Error)
        invariant progressMaximum == old(progressMaximum)
        invariant old(Valid()) ==> Valid()
      {
        assert queue[..i + 1][..i] == queue[..i];
        UpdateDisplay(queue[i]);
        i := i + 1;
      }
      assert queue[..i] == queue;
    }
  }

  /** The window's counters when the run is over. */
  datatype Summary = Summary(success: nat, error: nat, skip: nat, value: nat, maximum: nat)

  datatype RunResult =
    | NoDirectory
    | NoOperation
    | NoSupportedFiles
    | Completed(summary: Summary, queue: seq<Msg>)

  /** `main`, given the chosen folder (`""` when the picker was cancelled),
      the combobox position at confirmation, the listing `main` counts, the
      listing the worker walks, and what happens to each file. */
  method RunBatch(dirPath: string, choice: Option<nat>, countedListing: seq<string>, walkedListing: seq<string>,
                  attempt: (Transpose, string) -> Attempt)
    returns (r: RunResult)
    requires choice.Some? ==> choice.value < |OperationKeys|
    ensures dirPath == "" ==> r == NoDirectory
    ensures dirPath != "" && choice.None? ==> r == NoOperation
    ensures dirPath != "" && choice.Some? ==>
              (r == NoSupportedFiles <==> CountSelected(countedListing, SupportedExtensions) == 0)
    ensures r.Completed? <==>
              dirPath != "" && choice.Some? && CountSelected(countedListing, SupportedExtensions) > 0
    ensures r.Completed? ==>
              var op := Operations[OperationKeys[choice.value]];
              var n := CountSelected(walkedListing, SupportedExtensions);
              && r.queue == BatchMessages(walkedListing, op, attempt)
              && r.summary.maximum == CountSelected(countedListing, SupportedExtensions)
              && r.summary.value == r.summary.success + r.summary.error == n
              && r.summary.success == CountKind(r.queue, Success)
              && r.summary.skip == |walkedListing| - n
    ensures r.Completed? && countedListing == walkedListing ==> r.summary.value == r.summary.maximum
  {
    if dirPath == "" {
      return NoDirectory;
    }
    var operation := SelectOperation(choice);
    if operation.None? || operation.value == "" {
      return NoOperation;
    }
    var totalFiles := CountSelected(countedListing, SupportedExtensions);
    if totalFiles == 0 {
      return NoSupportedFiles;
    }
    var window := new ProcessingWindow(totalFiles);
    var queue := ProcessImages(walkedListing, operation.value, attempt);
    window.ProcessMessages(queue);
    BatchMessagesCounts(walkedListing, Operations[operation.value], attempt);
    r := Completed(Summary(window.successCount, window.errorCount, window.skipCount,
                           window.progressValue, window.progressMaximum), queue);
  }
}
