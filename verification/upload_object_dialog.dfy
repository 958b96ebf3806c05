/** The upload dialog: a list of picked files with a progress value per file,
    kept index-aligned, and the upload run that walks the list in order. */
module UploadObjectDialog {
  import opened Common
  import opened Api

  datatype Dialog = Dialog(
    files: seq<FileDesc>,
    progress: seq<int>,
    uploading: bool,
    error: Option<string>,
    current: Option<nat>)

  /** The dialog as it opens. */
  const Initial := Dialog([], [], false, None, None)

  const NoFilesError := "Please select at least one file"
  const UnexpectedError := "An unexpected error occurred during upload"

  /** Every picked file has exactly one progress value, at the same index. */
  ghost predicate Aligned(d: Dialog)
  {
    |d.files| == |d.progress|
  }

  // ---------------------------------------------------------------- editing the list

  /** Picking files (from the input or by dropping them) appends them after
      the files already listed and gives each a progress of 0. A `null`
      file list changes nothing. */
  function AddFiles(d: Dialog, picked: Option<seq<FileDesc>>): (r: Dialog)
    ensures picked.None? ==> r == d
    ensures picked.Some? ==>
      && |r.files| == |d.files| + |picked.value|
      && r.files[..|d.files|] == d.files && r.files[|d.files|..] == picked.value
      && |r.progress| == |d.progress| + |picked.value|
      && r.progress[..|d.progress|] == d.progress
      && (forall j :: |d.progress| <= j < |r.progress| ==> r.progress[j] == 0)
      && r.(files := d.files, progress := d.progress) == d
  {
    match picked
    case None => d
    case Some(fs) =>
      var zeros := seq(|fs|, _ => 0);
      var r := d.(files := d.files + fs, progress := d.progress + zeros);
      assert r.files[..|d.files|] == d.files && r.progress[..|d.progress|] == d.progress;
      r
  }

  /** `xs.filter((_, j) => j !== i)`: keeps every element whose position is not `i`. */
  function DropAt<T>(xs: seq<T>, i: int): (r: seq<T>)
    ensures 0 <= i < |xs| ==> r == xs[..i] + xs[i+1..] && |r| == |xs| - 1
    ensures !(0 <= i < |xs|) ==> r == xs
    decreases |xs|
  {
    if |xs| == 0 then []
    else
      var rest := DropAt(xs[1..], i - 1);
      if i == 0 then rest
      else
        assert 0 < i < |xs| ==> xs[..i] + xs[i+1..] == [xs[0]] + (xs[1..][..i - 1] + xs[1..][i..]);
        assert !(0 <= i < |xs|) ==> xs == [xs[0]] + xs[1..];
        [xs[0]] + rest
  }

  /** The remove button of row `i`: that row leaves both lists. */
  function RemoveFile(d: Dialog, i: int): (r: Dialog)
    ensures Aligned(d) ==> Aligned(r)
    ensures |r.files| == if 0 <= i < |d.files| then |d.files| - 1 else |d.files|
    ensures |r.progress| == if 0 <= i < |d.progress| then |d.progress| - 1 else |d.progress|
    ensures forall j :: 0 <= j < |r.files| ==> r.files[j] == d.files[if 0 <= i <= j then j + 1 else j]
    ensures forall j :: 0 <= j < |r.progress| ==> r.progress[j] == d.progress[if 0 <= i <= j then j + 1 else j]
    ensures r.(files := d.files, progress := d.progress) == d
  {
    d.(files := DropAt(d.files, i), progress := DropAt(d.progress, i))
  }

  /** Cancel or dismiss: ignored during an upload, otherwise everything but
      the (already false) uploading flag is reset and `onClose` is called. */
  function HandleClose(d: Dialog): (r: (Dialog, bool))
    ensures d.uploading ==> r == (d, false)
    ensures !d.uploading ==> r == (Initial, true)
  {
    if d.uploading then (d, false)
    else (d.(files := [], progress := [], current := None, error := None), true)
  }

  // ---------------------------------------------------------------- the upload run

  /** What the run does, in order: a progress value written for a file, or
      the `onUpload` call for a file. */
  datatype Event = SetProgress(index: nat, value: int) | CallUpload(index: nat)

  /** The dialog after the run, every event of the run, and whether `onClose`
      was called. */
  datatype Uploaded = Uploaded(dialog: Dialog, trace: seq<Event>, closed: bool)

  /** The first `n` progress values written for file `i`: 0, 10, 20, ... */
  function ProgressSteps(i: nat, n: nat): (r: seq<Event>)
  {
    seq(n, t => SetProgress(i, 10 * t))
  }

  /** Everything the run does for file `i`. */
  function Segment(i: nat): seq<Event>
  {
    ProgressSteps(i, 11) + [CallUpload(i)]
  }

  /** Everything the run does for files `0 .. k-1`. */
  function Trace(k: nat): seq<Event>
  {
    if k == 0 then [] else Trace(k - 1) + Segment(k - 1)
  }

  /** The index of the first call that rejects among the first `n`, or `n`. */
  function FirstRejected(n: nat, settle: nat -> Settled): (k: nat)
    ensures k <= n
    ensures forall j :: 0 <= j < k ==> settle(j).Resolved?
    ensures k < n ==> settle(k).Rejected?
  {
    if n == 0 then 0
    else
      var k := FirstRejected(n - 1, settle);
      if k < n - 1 then k
      else if settle(n - 1).Rejected? then n - 1 else n
  }

  /** The progress list once files `0 .. k-1` have run to 100. */
  function ProgressAfter(p: seq<int>, k: nat): seq<int>
  {
    seq(|p|, j requires 0 <= j < |p| => if j < k then 100 else p[j])
  }

  /** The upload button. Each file's progress steps through 0, 10, ..., 100
      before `onUpload` is called for it; `settle(i)` is how the call for
      file `i` settles. The first rejection ends the run and shows its
      message; if none rejects, the dialog is cleared and closed. */
  method HandleUpload(d: Dialog, settle: nat -> Settled) returns (r: Uploaded)
    requires Aligned(d)
    ensures Aligned(r.dialog)
    ensures |d.files| == 0 ==> r == Uploaded(d.(error := Some(NoFilesError)), [], false)
    ensures |d.files| > 0 && FirstRejected(|d.files|, settle) == |d.files| ==>
      r == Uploaded(Initial, Trace(|d.files|), true)
    ensures |d.files| > 0 && FirstRejected(|d.files|, settle) < |d.files| ==>
      var k := FirstRejected(|d.files|, settle);
      r == Uploaded(
        Dialog(d.files, ProgressAfter(d.progress, k + 1), false,
               Some(CaughtMessage(settle(k).reason, UnexpectedError)), Some(k)),
        Trace(k + 1), false)
  {
    var n := |d.files|;
    if n == 0 {
      return Uploaded(d.(error := Some(NoFilesError)), [], false);
    }
    var progress := d.progress;
    var trace: seq<Event> := [];
    var failure: Option<string> := None;
    var i := 0;
    while i < n && failure.None?
      invariant 0 <= i <= n
      invariant failure.None? ==> FirstRejected(n, settle) >= i
      invariant failure.Some? ==>
        && i >= 1 && FirstRejected(n, settle) == i - 1
        && failure.value == CaughtMessage(settle(i - 1).reason, UnexpectedError)
      invariant trace == Trace(i)
      invariant progress == ProgressAfter(d.progress, i)
      decreases n - i
    {
      var before := progress;
      var p := 0;
      while p <= 100
        invariant 0 <= p <= 110 && p % 10 == 0
        invariant trace == Trace(i) + ProgressSteps(i, p / 10)
        invariant |progress| == |before|
        invariant forall j :: 0 <= j < |progress| && j != i ==> progress[j] == before[j]
        invariant p > 0 ==> progress[i] == p - 10
      {
        progress := progress[i := p];
        trace := trace + [SetProgress(i, p)];
        p := p + 10;
      }
      assert progress == ProgressAfter(d.progress, i + 1);
      trace := trace + [CallUpload(i)];
      match settle(i) {
        case Resolved =>
        case Rejected(reason) =>
          failure := Some(CaughtMessage(reason, UnexpectedError));
      }
      i := i + 1;
    }
    match failure
    case None =>
      r := Uploaded(Initial, trace, true);
    case Some(msg) =>
      r := Uploaded(Dialog(d.files, progress, false, Some(msg), Some(i - 1)), trace, false);
  }

  // ---------------------------------------------------------------- properties of the run

  /** The event at position `q` of any run: runs are blocks of twelve, block
      `i` writing progress 0, 10, ..., 100 for file `i` and then calling
      `onUpload` for file `i`. */
  function EventAt(q: nat): Event
  {
    if q % 12 < 11 then SetProgress(q / 12, 10 * (q % 12)) else CallUpload(q / 12)
  }

  /** The events for files `0 .. k-1` are exactly the first `12 * k` blocks:
      nothing else happens, and files are handled in index order. */
  lemma {:induction false} TraceLayout(k: nat)
    ensures |Trace(k)| == 12 * k
    ensures forall q :: 0 <= q < |Trace(k)| ==> Trace(k)[q] == EventAt(q)
  {
    if k > 0 {
      TraceLayout(k - 1);
      var prev := Trace(k - 1);
      var seg := Segment(k - 1);
      assert Trace(k) == prev + seg;
      forall q | 0 <= q < |Trace(k)| ensures Trace(k)[q] == EventAt(q)
      {
        if q < |prev| {
          assert Trace(k)[q] == prev[q];
        } else {
          var t := q - 12 * (k - 1);
          assert q / 12 == k - 1 && q % 12 == t;
          assert Trace(k)[q] == seg[t];
        }
      }
    }
  }

  /** `onUpload` is called for file `i` in the events of files `0 .. k-1`
      exactly when `i < k`. With the run's result this says the files up to
      and including the first rejected one are uploaded and no later one is. */
  lemma CallsOfTrace(k: nat)
    ensures forall i: nat :: CallUpload(i) in Trace(k) <==> i < k
  {
    TraceLayout(k);
    forall i: nat | i < k ensures CallUpload(i) in Trace(k)
    {
      assert Trace(k)[12 * i + 11] == EventAt(12 * i + 11);
    }
    forall i: nat | CallUpload(i) in Trace(k) ensures i < k
    {
      var q :| 0 <= q < |Trace(k)| && Trace(k)[q] == CallUpload(i);
      assert EventAt(q) == CallUpload(i);
      assert q / 12 < k;
    }
  }

  /** The two lists stay aligned through picking, removing and closing. */
  lemma EditsKeepAligned(d: Dialog, picked: Option<seq<FileDesc>>, i: int)
    requires Aligned(d)
    ensures Aligned(AddFiles(d, picked))
    ensures Aligned(RemoveFile(d, i))
    ensures Aligned(HandleClose(d).0)
  {
  }
}
