/**
  The `FileUploader` component's state and the updates its handlers make:
  dropping files, removing one, and the upload flow with its simulated
  progress. The interval of the latest upload is modelled by the `ticking`
  flag (is it still live?) and by `Tick`, one firing of its callback.
  Intervals whose handle was lost are counted in `leaked`, and `LeakedTick` is
  one firing of one of them. Which intervals fire, and how often, before the
  request settles is a parameter: a schedule of firings.
 */
module FileUploader {
  import opened Wrappers
  import opened UploadTypes

  /** A file picked in the browser. */
  datatype Picked = Picked(name: string, size: nat, mimetype: string)

  /**
    The component's state: the selected files, `uploading`, `uploadProgress`
    and `error`; whether the interval of the latest upload is live; and how
    many intervals from earlier uploads are still live with no handle left to
    clear them.
   */
  datatype UploaderState = UploaderState(files: seq<Picked>, uploading: bool, progress: int, error: Option<string>,
                                         ticking: bool, leaked: nat)

  const Initial: UploaderState := UploaderState([], false, 0, None, false, 0)

  const SelectAtLeastOneMessage: string := "Selecione pelo menos um arquivo para enviar"
  const UploadFailedMessage: string := "Erro ao fazer upload dos arquivos"

  /** The progress the simulated counter stops at while waiting for the server. */
  const ProgressCap: int := 95

  /** `onDrop`: the accepted files go after the ones already selected, and the error is cleared. */
  function OnDrop(s: UploaderState, accepted: seq<Picked>): (t: UploaderState)
    ensures |t.files| == |s.files| + |accepted|
    ensures t.files[..|s.files|] == s.files
    ensures t.files[|s.files|..] == accepted
    ensures t.error.None?
    ensures t.(files := s.files, error := s.error) == s
  {
    s.(files := s.files + accepted, error := None)
  }

  /** `prev.filter((_, i) => i !== index)` over the elements at positions `offset`, `offset + 1`, .... */
  function FilterOutIndex(xs: seq<Picked>, index: int, offset: int): seq<Picked>
    decreases |xs|
  {
    if |xs| == 0 then []
    else (if offset == index then [] else [xs[0]]) + FilterOutIndex(xs[1..], index, offset + 1)
  }

  /** The filter drops exactly the element at `index`, and nothing when `index` is out of range. */
  lemma {:induction false} FilterOutIndexRemovesOne(xs: seq<Picked>, index: int, offset: int)
    ensures offset <= index < offset + |xs| ==>
      FilterOutIndex(xs, index, offset) == xs[..index - offset] + xs[index - offset + 1..]
    ensures !(offset <= index < offset + |xs|) ==> FilterOutIndex(xs, index, offset) == xs
    decreases |xs|
  {
    if |xs| > 0 {
      FilterOutIndexRemovesOne(xs[1..], index, offset + 1);
      if offset == index {
        assert FilterOutIndex(xs[1..], index, offset + 1) == xs[1..];
      } else if offset < index < offset + |xs| {
        assert xs[..index - offset] == [xs[0]] + xs[1..][..index - offset - 1];
        assert xs[index - offset + 1..] == xs[1..][index - offset..];
      } else {
        assert xs == [xs[0]] + xs[1..];
      }
    }
  }

  /**
    `removeFile(index)`: the file at `index` is dropped and the others keep
    their order; an index outside the list leaves it as it was.
   */
  function RemoveFile(s: UploaderState, index: int): (t: UploaderState)
    ensures 0 <= index < |s.files| ==> t.files == s.files[..index] + s.files[index + 1..]
    ensures 0 <= index < |s.files| ==> |t.files| == |s.files| - 1
    ensures !(0 <= index < |s.files|) ==> t == s
    ensures t.(files := s.files) == s
  {
    FilterOutIndexRemovesOne(s.files, index, 0);
    s.(files := FilterOutIndex(s.files, index, 0))
  }

  /** Removing the file just dropped at the end of the list restores the selection. */
  lemma DropThenRemoveRestores(s: UploaderState, f: Picked)
    ensures RemoveFile(OnDrop(s, [f]), |s.files|) == s.(error := None)
  {
  }

  /** One firing of the progress interval: add 5 below 95; at 95 or above, hold at 95 and stop the interval. */
  function Tick(s: UploaderState): (t: UploaderState)
    ensures !s.ticking ==> t == s
    ensures s.ticking && s.progress < ProgressCap ==> t.progress == s.progress + 5 && t.ticking
    ensures s.ticking && s.progress >= ProgressCap ==> t.progress == ProgressCap && !t.ticking
    ensures t.(progress := s.progress, ticking := s.ticking) == s
    ensures SimulatedProgress(s.progress) ==> SimulatedProgress(t.progress)
  {
    if !s.ticking then s
    else if s.progress >= ProgressCap then s.(progress := ProgressCap, ticking := false)
    else s.(progress := s.progress + 5)
  }

  /** `n` firings of the interval; after it has stopped, a firing changes nothing. */
  function Ticks(s: UploaderState, n: nat): UploaderState
    decreases n
  {
    if n == 0 then s else Ticks(Tick(s), n - 1)
  }

  /** A progress value the simulated counter can show: a multiple of 5 between 0 and 95. */
  predicate SimulatedProgress(p: int) {
    0 <= p <= ProgressCap && p % 5 == 0
  }

  function Min(a: int, b: int): int {
    if a <= b then a else b
  }

  /**
    From a live interval at a simulated progress `p`, `n` firings give
    `min(p + 5n, 95)`: the counter never passes 95 and stays a multiple of 5.
    The interval is live only while the last firing saw less than 95.
    Nothing but the progress and the interval changes.
   */
  lemma {:induction false} TicksFromLiveInterval(s: UploaderState, n: nat)
    requires s.ticking && SimulatedProgress(s.progress)
    ensures Ticks(s, n).progress == Min(s.progress + 5 * n, ProgressCap)
    ensures SimulatedProgress(Ticks(s, n).progress)
    ensures Ticks(s, n).ticking <==> (n == 0 || s.progress + 5 * (n - 1) < ProgressCap)
    ensures Ticks(s, n).(progress := s.progress, ticking := s.ticking) == s
    decreases n
  {
    if n > 0 {
      var t := Tick(s);
      if s.progress >= ProgressCap {
        StoppedIntervalIsInert(t, n - 1);
      } else {
        TicksFromLiveInterval(t, n - 1);
      }
    }
  }

  /** Firings of the interval change the progress and the interval's liveness, nothing else. */
  lemma {:induction false} TicksTouchOnlyProgress(s: UploaderState, n: nat)
    ensures Ticks(s, n).(progress := s.progress, ticking := s.ticking) == s
    decreases n
  {
    if n > 0 {
      TicksTouchOnlyProgress(Tick(s), n - 1);
    }
  }

  /** Once the interval has been cleared, further firings change nothing. */
  lemma {:induction false} StoppedIntervalIsInert(s: UploaderState, n: nat)
    requires !s.ticking
    ensures Ticks(s, n) == s
    decreases n
  {
    if n > 0 {
      StoppedIntervalIsInert(Tick(s), n - 1);
    }
  }

  /**
    The interval run as a loop: the progress after `n` firings starting at
    `start`, and whether the interval is still live.
   */
  method RunInterval(start: int, n: nat) returns (progress: int, live: bool)
    requires SimulatedProgress(start)
    ensures progress == Min(start + 5 * n, ProgressCap)
    ensures SimulatedProgress(progress)
    ensures live <==> (n == 0 || start + 5 * (n - 1) < ProgressCap)
    ensures var ticked := Ticks(UploaderState([], false, start, None, true, 0), n);
      progress == ticked.progress && live == ticked.ticking
  {
    progress, live := start, true;
    var k := 0;
    while k < n
      invariant 0 <= k <= n
      invariant progress == Min(start + 5 * k, ProgressCap)
      invariant live <==> (k == 0 || start + 5 * (k - 1) < ProgressCap)
    {
      if live {
        if progress >= ProgressCap {
          progress, live := ProgressCap, false;
        } else {
          progress := progress + 5;
        }
      }
      k := k + 1;
    }
    TicksFromLiveInterval(UploaderState([], false, start, None, true, 0), n);
  }

  /** The server's answer to the batch upload: the results, or a failure with the body's `message` if any. */
  datatype ApiReply = ApiOk(results: seq<UploadResult>) | ApiFailed(serverMessage: Option<string>)

  /** A handler's effects: the new state, whether the upload request was sent, and what `onUploadSuccess` received. */
  datatype Effects = Effects(state: UploaderState, requested: bool, delivered: Option<seq<UploadResult>>)

  /**
    The synchronous part of `handleUpload`, up to the request: an empty
    selection only sets the error; otherwise uploading starts, the error is
    cleared and the progress interval is started.
   */
  function StartUpload(s: UploaderState): (e: Effects)
    ensures e.requested <==> |s.files| > 0
    ensures e.delivered.None?
    ensures !e.requested ==> e.state == s.(error := Some(SelectAtLeastOneMessage))
    ensures e.requested ==> e.state == s.(uploading := true, error := None, ticking := true)
  {
    if |s.files| == 0 then Effects(s.(error := Some(SelectAtLeastOneMessage)), false, None)
    else Effects(s.(uploading := true, error := None, ticking := true), true, None)
  }

  /** `err.response?.data?.message || 'Erro ao fazer upload dos arquivos'`. */
  function FailureMessage(serverMessage: Option<string>): (m: string)
    ensures serverMessage.Some? && serverMessage.value != "" ==> m == serverMessage.value
    ensures serverMessage.None? || serverMessage.value == "" ==> m == UploadFailedMessage
  {
    match serverMessage
    case Some(m) => if m != "" then m else UploadFailedMessage
    case None => UploadFailedMessage
  }

  /**
    One firing of a leaked interval. It runs the same callback as the current
    one: below 95 it adds 5; at 95 or above it holds at 95 and clears itself,
    which is the only way a leaked interval ever stops.
   */
  function LeakedTick(s: UploaderState): (t: UploaderState)
    ensures s.leaked == 0 ==> t == s
    ensures s.leaked > 0 && s.progress < ProgressCap ==> t.progress == s.progress + 5 && t.leaked == s.leaked
    ensures s.leaked > 0 && s.progress >= ProgressCap ==> t.progress == ProgressCap && t.leaked == s.leaked - 1
    ensures t.(progress := s.progress, leaked := s.leaked) == s
  {
    if s.leaked == 0 then s
    else if s.progress >= ProgressCap then s.(progress := ProgressCap, leaked := s.leaked - 1)
    else s.(progress := s.progress + 5)
  }

  /** `n` firings of leaked intervals. */
  function LeakedTicks(s: UploaderState, n: nat): UploaderState
    decreases n
  {
    if n == 0 then s else LeakedTicks(LeakedTick(s), n - 1)
  }

  /** Which live interval fires next: the latest upload's, or a leaked one. */
  datatype Firing = OfCurrent | OfLeaked

  /** The firings that happen, in order, while a request is pending. */
  function Run(s: UploaderState, schedule: seq<Firing>): UploaderState
    decreases |schedule|
  {
    if |schedule| == 0 then s
    else Run(if schedule[0] == OfCurrent then Tick(s) else LeakedTick(s), schedule[1..])
  }

  /**
    Firings only ever stop intervals: the current one never comes back to life,
    leaked ones only go away, and nothing but the progress and the intervals changes.
   */
  lemma {:induction false} RunOnlyStops(s: UploaderState, schedule: seq<Firing>)
    ensures Run(s, schedule).leaked <= s.leaked
    ensures Run(s, schedule).ticking ==> s.ticking
    ensures Run(s, schedule).(progress := s.progress, ticking := s.ticking, leaked := s.leaked) == s
    decreases |schedule|
  {
    if |schedule| > 0 {
      RunOnlyStops(if schedule[0] == OfCurrent then Tick(s) else LeakedTick(s), schedule[1..]);
    }
  }

  /** With no interval live, firings change nothing. */
  lemma {:induction false} QuietIsInert(s: UploaderState, schedule: seq<Firing>)
    requires !s.ticking && s.leaked == 0
    ensures Run(s, schedule) == s
    decreases |schedule|
  {
    if |schedule| > 0 {
      QuietIsInert(s, schedule[1..]);
    }
  }

  /**
    While no firing can see 95, every interval that was live stays live, and
    each firing adds 5 at most.
   */
  lemma {:induction false} RunBelowCap(s: UploaderState, schedule: seq<Firing>)
    requires s.progress + 5 * (|schedule| - 1) < ProgressCap
    ensures var t := Run(s, schedule);
      && t.ticking == s.ticking && t.leaked == s.leaked
      && s.progress <= t.progress <= s.progress + 5 * |schedule|
      && t.(progress := s.progress) == s
    decreases |schedule|
  {
    if |schedule| > 0 {
      RunBelowCap(if schedule[0] == OfCurrent then Tick(s) else LeakedTick(s), schedule[1..]);
    }
  }

  /** Leaked intervals that can no longer fire leave the state alone. */
  lemma {:induction false} NoLeakedIsInert(s: UploaderState, n: nat)
    requires s.leaked == 0
    ensures LeakedTicks(s, n) == s
    decreases n
  {
    if n > 0 {
      NoLeakedIsInert(s, n - 1);
    }
  }

  /** With a leaked interval live, its firings climb from `p` to `min(p + 5n, 95)`. */
  lemma {:induction false} LeakedTicksClimb(s: UploaderState, n: nat)
    requires s.leaked > 0 && SimulatedProgress(s.progress)
    ensures LeakedTicks(s, n).progress == Min(s.progress + 5 * n, ProgressCap)
    decreases n
  {
    if n > 0 {
      var t := LeakedTick(s);
      if t.leaked == 0 {
        NoLeakedIsInert(t, n - 1);
      } else {
        LeakedTicksClimb(t, n - 1);
      }
    }
  }

  /**
    The request settles, with the intervals as written. A success clears the
    latest upload's interval, and only that one. A failure resets the
    progress but clears nothing, so a live interval of the latest upload
    joins the leaked ones.
   */
  function SettleAsWritten(s: UploaderState, reply: ApiReply): (e: Effects)
    ensures e.requested
    ensures reply.ApiOk? ==>
      && e.state == s.(ticking := false, progress := 100, files := [])
      && e.delivered == Some(reply.results)
    ensures reply.ApiFailed? ==>
      && e.state.progress == 0 && !e.state.uploading && e.state.error == Some(FailureMessage(reply.serverMessage))
      && e.state.files == s.files
      && !e.state.ticking
      && e.state.leaked == s.leaked + (if s.ticking then 1 else 0)
      && e.delivered.None?
  {
    match reply
    case ApiOk(rs) => Effects(s.(ticking := false, progress := 100, files := []), true, Some(rs))
    case ApiFailed(m) =>
      var leaked := s.leaked + (if s.ticking then 1 else 0);
      Effects(s.(error := Some(FailureMessage(m)), progress := 0, uploading := false, ticking := false, leaked := leaked), true, None)
  }

  /**
    `handleUpload` as written: start, the scheduled firings while waiting, then
    settle. A failure that arrives before any interval has fired at 95 leaves
    the latest upload's interval running with no handle; a success then leaves
    the leaked intervals as they were.
   */
  function HandleUploadAsWritten(s: UploaderState, waiting: seq<Firing>, reply: ApiReply): (e: Effects)
    ensures e.requested <==> |s.files| > 0
    ensures |s.files| == 0 ==> e.state == s.(error := Some(SelectAtLeastOneMessage)) && e.delivered.None?
    ensures |s.files| > 0 && reply.ApiOk? ==>
      && e.state.progress == 100 && e.state.files == [] && !e.state.ticking && e.delivered == Some(reply.results)
      && e.state.leaked <= s.leaked
    ensures |s.files| > 0 && reply.ApiFailed? ==>
      && e.state.progress == 0 && !e.state.uploading && e.state.files == s.files && !e.state.ticking
      && e.state.leaked <= s.leaked + 1
    ensures |s.files| > 0 && s.progress + 5 * (|waiting| - 1) < ProgressCap ==>
      e.state.leaked == s.leaked + (if reply.ApiFailed? then 1 else 0)
  {
    var start := StartUpload(s);
    if !start.requested then start
    else
      var waited := Run(start.state, waiting);
      RunOnlyStops(start.state, waiting);
      if s.progress + 5 * (|waiting| - 1) < ProgressCap then
        RunBelowCap(start.state, waiting);
        SettleAsWritten(waited, reply)
      else SettleAsWritten(waited, reply)
  }

  /**
    The progress interval outlives a failed upload: when the failure arrives
    before any interval has fired at 95, the bar is reset to 0 with a leaked
    interval live, whose next firing moves it off 0 while nothing is
    uploading, and which climbs back to 95.
   */
  lemma FailedUploadKeepsTicking(s: UploaderState, waiting: seq<Firing>, m: Option<string>)
    requires |s.files| > 0 && s.progress == 0
    requires |waiting| <= 19
    ensures var after := HandleUploadAsWritten(s, waiting, ApiFailed(m)).state;
      && !after.uploading
      && after.error == Some(FailureMessage(m))
      && after.leaked == s.leaked + 1
      && LeakedTick(after).progress == 5
      && LeakedTicks(after, 19).progress == ProgressCap
  {
    var after := HandleUploadAsWritten(s, waiting, ApiFailed(m)).state;
    LeakedTicksClimb(after, 19);
  }

  /**
    As written, a retry after such a failure cannot keep its success on
    screen: a success clears only the retry's own interval, and the next
    firing of the leaked one turns the 100 back into 95.
   */
  lemma RetryLosesFullBar(s: UploaderState, first: seq<Firing>, m: Option<string>, second: seq<Firing>, rs: seq<UploadResult>)
    requires |s.files| > 0 && s.progress == 0
    requires |first| <= 19 && |second| <= 19
    ensures var failed := HandleUploadAsWritten(s, first, ApiFailed(m)).state;
      var retried := HandleUploadAsWritten(failed, second, ApiOk(rs)).state;
      && |failed.files| > 0 && !failed.uploading
      && retried.progress == 100 && retried.files == [] && !retried.ticking
      && retried.leaked == s.leaked + 1
      && LeakedTick(retried).progress == ProgressCap
  {
    var failed := HandleUploadAsWritten(s, first, ApiFailed(m)).state;
    assert failed.progress + 5 * (|second| - 1) < ProgressCap;
  }

  /** The request settles, with the interval cleared on both paths. */
  function Settle(s: UploaderState, reply: ApiReply): Effects {
    match reply
    case ApiOk(rs) => Effects(s.(ticking := false, progress := 100, files := []), true, Some(rs))
    case ApiFailed(m) => Effects(s.(error := Some(FailureMessage(m)), progress := 0, uploading := false, ticking := false), true, None)
  }

  /**
    `handleUpload`, with the interval cleared on failure too. An empty
    selection sends nothing. A success shows 100%, clears the selection and
    hands the results to `onUploadSuccess`. A failure shows the server's
    message (or the fallback), resets the progress and `uploading`, and keeps
    the selection. No interval is left behind.
   */
  function HandleUpload(s: UploaderState, waiting: seq<Firing>, reply: ApiReply): (e: Effects)
    ensures e.requested <==> |s.files| > 0
    ensures |s.files| == 0 ==> e.state == s.(error := Some(SelectAtLeastOneMessage)) && e.delivered.None?
    ensures |s.files| > 0 && reply.ApiOk? ==>
      && e.state.progress == 100 && e.state.files == [] && e.state.uploading && e.state.error.None? && !e.state.ticking
      && e.delivered == Some(reply.results)
    ensures |s.files| > 0 && reply.ApiFailed? ==>
      && e.state.files == s.files && !e.state.uploading && e.state.progress == 0
      && e.state.error == Some(FailureMessage(reply.serverMessage)) && !e.state.ticking
      && e.delivered.None?
    ensures e.state.leaked <= s.leaked
  {
    var start := StartUpload(s);
    if !start.requested then start
    else
      RunOnlyStops(start.state, waiting);
      Settle(Run(start.state, waiting), reply)
  }

  /** After a failure the progress bar stays at 0, however the intervals would have fired. */
  lemma {:induction false} FailedUploadStaysReset(s: UploaderState, waiting: seq<Firing>, m: Option<string>, later: seq<Firing>)
    requires |s.files| > 0 && s.leaked == 0
    ensures Run(HandleUpload(s, waiting, ApiFailed(m)).state, later).progress == 0
  {
    QuietIsInert(HandleUpload(s, waiting, ApiFailed(m)).state, later);
  }

  /** A retry after a failure keeps its success on screen: nothing is left to fire. */
  lemma {:induction false} RetryKeepsFullBar(s: UploaderState, first: seq<Firing>, m: Option<string>, second: seq<Firing>,
                          rs: seq<UploadResult>, later: seq<Firing>)
    requires |s.files| > 0 && s.leaked == 0
    ensures var failed := HandleUpload(s, first, ApiFailed(m)).state;
      var retried := HandleUpload(failed, second, ApiOk(rs)).state;
      && |failed.files| > 0 && !failed.uploading
      && retried.progress == 100 && retried.files == []
      && Run(retried, later).progress == 100
  {
    var failed := HandleUpload(s, first, ApiFailed(m)).state;
    QuietIsInert(HandleUpload(failed, second, ApiOk(rs)).state, later);
  }

  /** The `setTimeout` after a success: progress back to 0 and `uploading` off. */
  function ResetAfterSuccess(s: UploaderState): (t: UploaderState)
    ensures t.progress == 0 && !t.uploading
    ensures t.(progress := s.progress, uploading := s.uploading) == s
  {
    s.(progress := 0, uploading := false)
  }
}
