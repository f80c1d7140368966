/** The video-generation task of api/mock.js as a value: its record, the
    scheduled stages that mutate it, the retry reset, and the listing order.
    `createVideoGenTask` schedules four stages (at 400, 2000, 4000 and 6500 ms);
    `retryVideoGenTask` schedules three (at 400, 2000 and 5000 ms). Each stage
    is a function of the record; the random failure of the last first-run
    stage is the flag `fail`, and `Date.now()` is the clock reading `now`. */
module VideoGen {
  import opened Wrappers
  import opened Strings

  datatype Status = Pending | Running | Done | Failed

  /** A task record. `error`, `videoUrl` and `endAt` are absent until a stage sets them. */
  datatype GenTask = GenTask(
    taskId: string,
    dramaId: int,
    ep: int,
    status: Status,
    style: string,
    duration: int,
    voice: string,
    startAt: int,
    progress: int,
    error: Option<string>,
    videoUrl: Option<string>,
    endAt: Option<int>)

  const GeneratedVideoUrl: string := "https://interactive-examples.mdn.mozilla.net/media/cc0-videos/flower.mp4"
  const GenerationFailedMessage: string := "生成失败，请重试"
  const DefaultStyle: string := "urban"
  const DefaultDuration: int := 60
  const DefaultVoice: string := "female"

  /** `task_${id}`. */
  function TaskKey(n: nat): (key: string)
    ensures |key| > 5 && key[..5] == "task_"
    ensures forall i :: 5 <= i < |key| ==> '0' <= key[i] <= '9'
  {
    "task_" + NatToDecimal(n)
  }

  /** Different counter values give different task ids. */
  lemma TaskKeyInjective(a: nat, b: nat)
    requires TaskKey(a) == TaskKey(b)
    ensures a == b
  {
    assert NatToDecimal(a) == TaskKey(a)[5..] == TaskKey(b)[5..] == NatToDecimal(b);
    DecimalInjective(a, b);
  }

  /** The request fields, fixed at creation, agree. */
  predicate SameRequest(a: GenTask, b: GenTask) {
    && a.taskId == b.taskId && a.dramaId == b.dramaId && a.ep == b.ep
    && a.style == b.style && a.duration == b.duration && a.voice == b.voice && a.startAt == b.startAt
  }

  /** The record `createVideoGenTask` inserts: the request as given, started at `now`, PENDING at 0% with
      no outcome yet, so in step with the four first-run stages. */
  function NewTask(taskId: string, dramaId: int, ep: int, style: string, duration: int, voice: string, now: int): (t: GenTask)
    ensures t.taskId == taskId && t.dramaId == dramaId && t.ep == ep && t.startAt == now
    ensures t.style == style && t.duration == duration && t.voice == voice
    ensures InStep(t, FirstRunStages) && t.endAt.None?
  {
    GenTask(taskId, dramaId, ep, Pending, style, duration, voice, now, 0, None, None, None)
  }

  /** One scheduled mutation: RUNNING at 10%; a progress value; the first run's
      final stage (DONE or FAILED); the retry's final stage (always DONE). */
  datatype Stage = Begin | Advance(progress: int) | Resolve | RetryResolve

  const FirstRunStages: seq<Stage> := [Begin, Advance(55), Advance(85), Resolve]
  const RetryStages: seq<Stage> := [Begin, Advance(60), RetryResolve]

  /** What one stage does to the record it finds under its task id. The request fields never change; only
      a final stage sets an outcome and `endAt`, and a failure is possible only at the first run's end. */
  function ApplyStage(t: GenTask, stage: Stage, fail: bool, now: int): (r: GenTask)
    ensures SameRequest(r, t)
    ensures (stage.Begin? || stage.Advance?) ==> r.error == t.error && r.videoUrl == t.videoUrl && r.endAt == t.endAt
    ensures stage.Begin? ==> r.status == Running && r.progress == 10
    ensures stage.Advance? ==> r.status == t.status && r.progress == stage.progress
    ensures (stage.Resolve? || stage.RetryResolve?) ==> r.endAt == Some(now)
    ensures stage.Resolve? && fail ==> r.status == Failed && r.error == Some(GenerationFailedMessage)
    ensures (stage.Resolve? && !fail) || stage.RetryResolve? ==>
      r.status == Done && r.progress == 100 && r.videoUrl == Some(GeneratedVideoUrl)
  {
    match stage
    case Begin => t.(status := Running, progress := 10)
    case Advance(p) => t.(progress := p)
    case Resolve =>
      if fail then t.(status := Failed, error := Some(GenerationFailedMessage), endAt := Some(now))
      else t.(status := Done, progress := 100, videoUrl := Some(GeneratedVideoUrl), endAt := Some(now))
    case RetryResolve => t.(status := Done, progress := 100, videoUrl := Some(GeneratedVideoUrl), endAt := Some(now))
  }

  /** `retryVideoGenTask` on a FAILED record: PENDING at 0%, `error` and `videoUrl` deleted (`endAt` stays). */
  function ResetForRetry(t: GenTask): (r: GenTask)
    ensures SameRequest(r, t) && r.endAt == t.endAt
    ensures r.status == Pending && r.progress == 0 && NoOutcome(r)
  {
    t.(status := Pending, progress := 0, error := None, videoUrl := None)
  }

  /** Neither outcome field is set. */
  predicate NoOutcome(t: GenTask) {
    t.error.None? && t.videoUrl.None?
  }

  /** The record agrees with the stages still scheduled for it: the state machine's invariant. */
  predicate InStep(t: GenTask, pending: seq<Stage>) {
    if pending == FirstRunStages || pending == RetryStages then
      t.status == Pending && t.progress == 0 && NoOutcome(t)
    else if pending == FirstRunStages[1..] || pending == RetryStages[1..] then
      t.status == Running && t.progress == 10 && NoOutcome(t)
    else if pending == FirstRunStages[2..] then
      t.status == Running && t.progress == 55 && NoOutcome(t)
    else if pending == FirstRunStages[3..] then
      t.status == Running && t.progress == 85 && NoOutcome(t)
    else if pending == RetryStages[2..] then
      t.status == Running && t.progress == 60 && NoOutcome(t)
    else if pending == [] then
      || (t.status == Done && t.progress == 100 && t.videoUrl.Some? && t.error.None?)
      || (t.status == Failed && t.progress == 85 && t.error.Some? && t.videoUrl.None?)
    else false
  }

  /** The status moves PENDING -> RUNNING -> RUNNING ... -> DONE | FAILED, never skipping RUNNING. */
  predicate Advances(before: Status, after: Status) {
    || (before == Pending && after == Running)
    || (before == Running && after in {Running, Done, Failed})
  }

  /** A record in step keeps its progress within 0..100 and reports an error exactly when FAILED. */
  lemma InStepBounds(t: GenTask, pending: seq<Stage>)
    requires InStep(t, pending)
    ensures 0 <= t.progress <= 100
    ensures t.error.Some? <==> t.status == Failed
    ensures t.videoUrl.Some? <==> t.status == Done
    ensures t.status in {Done, Failed} <==> pending == []
  {
  }

  /** A freshly inserted record is in step with the four first-run stages. */
  lemma NewTaskInStep(taskId: string, dramaId: int, ep: int, style: string, duration: int, voice: string, now: int)
    ensures InStep(NewTask(taskId, dramaId, ep, style, duration, voice, now), FirstRunStages)
  {
  }

  /** Firing the next scheduled stage keeps the record in step, never lowers progress and only advances the status. */
  lemma StageStep(t: GenTask, pending: seq<Stage>, fail: bool, now: int)
    requires InStep(t, pending) && pending != []
    ensures var t' := ApplyStage(t, pending[0], fail, now);
      && InStep(t', pending[1..])
      && t.progress <= t'.progress
      && Advances(t.status, t'.status)
      && t'.taskId == t.taskId && t'.dramaId == t.dramaId && t'.ep == t.ep && t'.startAt == t.startAt
  {
    assert FirstRunStages[1..][1..] == FirstRunStages[2..];
    assert FirstRunStages[2..][1..] == FirstRunStages[3..];
    assert RetryStages[1..][1..] == RetryStages[2..];
  }

  /** A FAILED record, reset for retry, is in step with the three retry stages. */
  lemma ResetInStep(t: GenTask)
    requires InStep(t, []) && t.status == Failed
    ensures InStep(ResetForRetry(t), RetryStages)
  {
  }

  /** The records a run of stages goes through, the starting one first. */
  function Trace(t: GenTask, stages: seq<Stage>, fail: bool, now: int): (tr: seq<GenTask>)
    ensures |tr| == |stages| + 1 && tr[0] == t
    decreases |stages|
  {
    if stages == [] then [t]
    else [t] + Trace(ApplyStage(t, stages[0], fail, now), stages[1..], fail, now)
  }

  /** Along any run of the scheduled stages progress never decreases, the status only advances, and the run ends terminal. */
  lemma {:induction false} TraceMonotone(t: GenTask, pending: seq<Stage>, fail: bool, now: int)
    requires InStep(t, pending)
    ensures var tr := Trace(t, pending, fail, now);
      && (forall k :: 0 <= k < |tr| - 1 ==> tr[k].progress <= tr[k + 1].progress && Advances(tr[k].status, tr[k + 1].status))
      && InStep(tr[|tr| - 1], [])
    decreases |pending|
  {
    if pending != [] {
      var t' := ApplyStage(t, pending[0], fail, now);
      StageStep(t, pending, fail, now);
      TraceMonotone(t', pending[1..], fail, now);
      var rest := Trace(t', pending[1..], fail, now);
      assert Trace(t, pending, fail, now) == [t] + rest;
    }
  }

  /** A first run ends DONE at 100% with a video, or FAILED with progress left at 85% and an error. */
  lemma FirstRunOutcome(t: GenTask, fail: bool, now: int)
    requires InStep(t, FirstRunStages)
    ensures var tr := Trace(t, FirstRunStages, fail, now);
      && |tr| == 5
      && tr[1].status == Running && tr[1].progress == 10
      && tr[2].progress == 55 && tr[3].progress == 85
      && (fail ==> tr[4].status == Failed && tr[4].progress == 85 && tr[4].error == Some(GenerationFailedMessage))
      && (!fail ==> tr[4].status == Done && tr[4].progress == 100 && tr[4].videoUrl == Some(GeneratedVideoUrl))
  {
  }

  /** A retry run ends DONE at 100% whatever the failure flag says: it never fails. */
  lemma RetryRunOutcome(t: GenTask, fail: bool, now: int)
    requires InStep(t, []) && t.status == Failed
    ensures var tr := Trace(ResetForRetry(t), RetryStages, fail, now);
      && |tr| == 4
      && (forall k :: 0 <= k < 4 ==> tr[k].status != Failed)
      && tr[3].status == Done && tr[3].progress == 100 && tr[3].videoUrl == Some(GeneratedVideoUrl)
  {
  }

  // Listing: `Object.values(items).sort((a, b) => b.startAt - a.startAt)` and `slice`.

  /** Inserts `t` before the first record that did not start later, so equal start times keep their order. */
  function InsertByStart(t: GenTask, sorted: seq<GenTask>): (r: seq<GenTask>)
    ensures |r| == |sorted| + 1
    ensures multiset(r) == multiset(sorted) + multiset{t}
    decreases |sorted|
  {
    if sorted == [] then [t]
    else if sorted[0].startAt <= t.startAt then [t] + sorted
    else
      assert sorted == [sorted[0]] + sorted[1..];
      [sorted[0]] + InsertByStart(t, sorted[1..])
  }

  /** Latest start first. */
  predicate SortedByStartDesc(s: seq<GenTask>) {
    forall i, j :: 0 <= i < j < |s| ==> s[i].startAt >= s[j].startAt
  }

  /** The stable sort by `startAt`, latest first. */
  function SortByStartDesc(s: seq<GenTask>): (r: seq<GenTask>)
    ensures |r| == |s|
    ensures multiset(r) == multiset(s)
    decreases |s|
  {
    if s == [] then []
    else
      assert s == [s[0]] + s[1..];
      InsertByStart(s[0], SortByStartDesc(s[1..]))
  }

  /** Inserting into a sorted list keeps it sorted. */
  lemma {:induction false} InsertKeepsSorted(t: GenTask, sorted: seq<GenTask>)
    requires SortedByStartDesc(sorted)
    ensures SortedByStartDesc(InsertByStart(t, sorted))
    decreases |sorted|
  {
    if sorted != [] && sorted[0].startAt > t.startAt {
      InsertKeepsSorted(t, sorted[1..]);
      var rest := InsertByStart(t, sorted[1..]);
      assert multiset(rest) == multiset(sorted[1..]) + multiset{t};
      forall k | 0 <= k < |rest| ensures sorted[0].startAt >= rest[k].startAt {
        assert rest[k] in multiset(rest);
        if rest[k] != t {
          assert rest[k] in multiset(sorted[1..]);
          assert rest[k] in sorted[1..];
        }
      }
    }
  }

  /** The listing order is latest start first, and it lists every task exactly once. */
  lemma {:induction false} SortSortsAndPermutes(s: seq<GenTask>)
    ensures SortedByStartDesc(SortByStartDesc(s))
    ensures multiset(SortByStartDesc(s)) == multiset(s)
    decreases |s|
  {
    if s != [] {
      SortSortsAndPermutes(s[1..]);
      InsertKeepsSorted(s[0], SortByStartDesc(s[1..]));
    }
  }

  /** How `slice` reads an index: a negative one counts from the end; both are clamped to 0..n. */
  function SliceIndex(x: int, n: nat): (r: nat)
    ensures r <= n
  {
    if x < 0 then (if n + x < 0 then 0 else n + x) else if x < n then x else n
  }

  /** `s.slice(start, end)`: the run of elements from the clamped `start` up to the clamped `end`, empty
      when they cross. */
  function JsSlice<T>(s: seq<T>, start: int, end: int): (r: seq<T>)
    ensures var a, b := SliceIndex(start, |s|), SliceIndex(end, |s|);
      |r| == (if a < b then b - a else 0) && a + |r| <= |s|
    ensures forall i :: 0 <= i < |r| ==> r[i] == s[SliceIndex(start, |s|) + i]
  {
    var a, b := SliceIndex(start, |s|), SliceIndex(end, |s|);
    if a < b then s[a..b] else []
  }

  /** A slice of width `size >= 0` holds at most `size` elements, wherever it starts. */
  lemma SliceAtMost<T>(s: seq<T>, start: int, size: int)
    requires size >= 0
    ensures |JsSlice(s, start, start + size)| <= size
  {
  }

  /** The `listVideoGenTasks` reply. */
  datatype TaskPage = TaskPage(tasks: seq<GenTask>, total: nat, page: int, pageSize: int)

  /** `listVideoGenTasks({ page = 1, pageSize = 10 })` over the tasks in creation order: a sorted run of
      those tasks, the count of all of them, and the page arguments with their defaults. */
  function ListPage(all: seq<GenTask>, page: Option<int>, pageSize: Option<int>): (r: TaskPage)
    ensures r.total == |all|
    ensures r.page == (if page.Some? then page.value else 1)
    ensures r.pageSize == (if pageSize.Some? then pageSize.value else 10)
    ensures SortedByStartDesc(r.tasks) && forall t :: t in r.tasks ==> t in all
  {
    SortSortsAndPermutes(all);
    assert forall t :: t in SortByStartDesc(all) ==> t in multiset(all);
    var p := if page.Some? then page.value else 1;
    var size := if pageSize.Some? then pageSize.value else 10;
    PageOf(SortByStartDesc(all), p, size)
  }

  /** Page `page` of `pageSize` records of an already sorted list: for a page at least 1 and a non-negative
      size, the stretch from `(page - 1) * pageSize` of at most `pageSize` records, sorted when the list is. */
  function PageOf(sorted: seq<GenTask>, page: int, pageSize: int): (r: TaskPage)
    ensures r.total == |sorted| && r.page == page && r.pageSize == pageSize
    ensures forall t :: t in r.tasks ==> t in sorted
    ensures SortedByStartDesc(sorted) ==> SortedByStartDesc(r.tasks)
    ensures page >= 1 && pageSize >= 0 ==>
      var start, end := PageStart(page, pageSize), PageStart(page, pageSize) + pageSize;
      && (start < |sorted| ==> r.tasks == sorted[start..if end <= |sorted| then end else |sorted|])
      && (start >= |sorted| ==> r.tasks == [])
  {
    var start := PageStart(page, pageSize);
    assert page >= 1 && pageSize >= 0 ==>
      (start < |sorted| ==> JsSlice(sorted, start, start + pageSize) == sorted[start..if start + pageSize <= |sorted| then start + pageSize else |sorted|])
      && (start >= |sorted| ==> JsSlice(sorted, start, start + pageSize) == []) by {
      if page >= 1 && pageSize >= 0 {
        SliceWindow(sorted, start, pageSize);
      }
    }
    TaskPage(JsSlice(sorted, start, start + pageSize), |sorted|, page, pageSize)
  }

  /** A slice from a non-negative `start` of width `size >= 0` is that window of `s`, cut at its end. */
  lemma SliceWindow<T>(s: seq<T>, start: int, size: int)
    requires start >= 0 && size >= 0
    ensures start < |s| ==> JsSlice(s, start, start + size) == s[start..if start + size <= |s| then start + size else |s|]
    ensures start >= |s| ==> JsSlice(s, start, start + size) == []
  {
  }

  /** The index of the first record of page `page`: `(page - 1) * pageSize`. */
  function PageStart(page: int, pageSize: int): (start: int)
    ensures page >= 1 && pageSize >= 0 ==> start >= 0
  {
    (page - 1) * pageSize
  }

  /** A window from a non-negative `start` of a sorted list holds at most `size` records, sorted,
      all taken from the list. */
  lemma WindowSorted(sorted: seq<GenTask>, start: int, size: int)
    requires SortedByStartDesc(sorted) && start >= 0 && size >= 0
    ensures var w := JsSlice(sorted, start, start + size);
      |w| <= size && SortedByStartDesc(w) && forall t :: t in w ==> t in sorted
  {
    SliceAtMost(sorted, start, size);
    SliceWindow(sorted, start, size);
    if start < |sorted| {
      var hi := if start + size <= |sorted| then start + size else |sorted|;
      SortedWindow(sorted, start, hi);
      assert forall t :: t in sorted[start..hi] ==> t in sorted;
    }
  }

  /** A page is the window `[(page-1)*pageSize, page*pageSize)` of the sorted list, at most `pageSize` long,
      sorted latest first, drawn from the tasks; `total` counts all tasks. */
  lemma ListPageWindow(all: seq<GenTask>, page: int, pageSize: int)
    requires page >= 1 && pageSize >= 0
    ensures var r, sorted := ListPage(all, Some(page), Some(pageSize)), SortByStartDesc(all);
      var start := PageStart(page, pageSize);
      && r.total == |all|
      && |r.tasks| <= pageSize
      && (start < |all| ==> r.tasks == sorted[start..if start + pageSize <= |all| then start + pageSize else |all|])
      && (start >= |all| ==> r.tasks == [])
      && SortedByStartDesc(r.tasks)
      && (forall t :: t in r.tasks ==> t in all)
  {
    var sorted := SortByStartDesc(all);
    SortSortsAndPermutes(all);
    var start := PageStart(page, pageSize);
    SliceWindow(sorted, start, pageSize);
    WindowSorted(sorted, start, pageSize);
    var w := JsSlice(sorted, start, start + pageSize);
    assert ListPage(all, Some(page), Some(pageSize)).tasks == w;
    forall t | t in w ensures t in all {
      assert t in multiset(sorted);
    }
    assert |w| <= pageSize;
    assert SortedByStartDesc(w);
  }

  /** Every window of a sorted list is sorted. */
  lemma SortedWindow(s: seq<GenTask>, lo: nat, hi: nat)
    requires SortedByStartDesc(s) && lo <= hi <= |s|
    ensures SortedByStartDesc(s[lo..hi])
  {
    forall i, j | 0 <= i < j < hi - lo ensures s[lo..hi][i].startAt >= s[lo..hi][j].startAt {
      assert s[lo..hi][i] == s[lo + i] && s[lo..hi][j] == s[lo + j];
    }
  }

  /** A negative `pageSize` on page 1 drops that many tasks from the end instead of returning an empty page. */
  lemma NegativePageSizeDropsTail(all: seq<GenTask>, pageSize: int)
    requires pageSize < 0 && |all| + pageSize >= 0
    ensures ListPage(all, Some(1), Some(pageSize)).tasks == SortByStartDesc(all)[..|all| + pageSize]
  {
    var sorted := SortByStartDesc(all);
    assert PageOf(sorted, 1, pageSize).tasks == JsSlice(sorted, 0, pageSize);
  }
}
