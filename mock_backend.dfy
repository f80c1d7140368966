/** The in-memory back end of api/mock.js that the video-generation pipeline
    works on: the catalog `db`, the task table `genTasks`, the daily quota
    `genQuota`, and the timers each call schedules. A timer is a `Stage`
    queued under its task id; the queue of one task fires in order of its
    delays, and `FireNextTimer` fires the head of one task's queue, so any
    interleaving of different tasks' timers is a sequence of its calls. */
module MockBackend {
  import opened Wrappers
  import opened VideoGen
  import opened Dramas

  const QuotaExhaustedMessage: string := "今日生成配额已用尽"
  const TaskNotFoundMessage: string := "任务不存在"
  const OnlyFailedRetryMessage: string := "仅失败任务可重试"

  /** `genQuota.dailyLimit`. */
  const DailyLimit: nat := 20
  /** `24*3600*1000`: the quota resets a day after start-up. */
  const DayMillis: int := 24 * 3600 * 1000

  /** The ids `task_1` .. `task_{n-1}`. */
  ghost function KeysBelow(n: nat): set<string> {
    set k: nat | 1 <= k < n :: TaskKey(k)
  }

  /** There are exactly `n - 1` ids below `n`. */
  lemma {:induction false} KeysBelowCount(n: nat)
    requires n >= 1
    ensures |KeysBelow(n)| == n - 1
  {
    if n > 1 {
      KeysBelowCount(n - 1);
      assert KeysBelow(n) == KeysBelow(n - 1) + {TaskKey(n - 1)};
      if TaskKey(n - 1) in KeysBelow(n - 1) {
        var k: nat :| 1 <= k < n - 1 && TaskKey(k) == TaskKey(n - 1);
        TaskKeyInjective(k, n - 1);
      }
    } else {
      assert KeysBelow(n) == {};
    }
  }

  /** The records `task_1` .. `task_{n-1}`, in the order they were created; ids not in `items` are skipped. */
  function InCreationOrder(items: map<string, GenTask>, n: nat): (s: seq<GenTask>)
    ensures |s| <= if n == 0 then 0 else n - 1
    ensures forall t :: t in s ==> t in items.Values
    ensures (forall k: nat :: 1 <= k < n ==> TaskKey(k) in items) ==> |s| == if n == 0 then 0 else n - 1
    ensures (forall k: nat :: 1 <= k < n ==> TaskKey(k) in items) ==>
      forall k: nat :: 1 <= k < n ==> s[k - 1] == items[TaskKey(k)]
  {
    if n <= 1 then []
    else
      var rest := InCreationOrder(items, n - 1);
      if TaskKey(n - 1) in items then rest + [items[TaskKey(n - 1)]] else rest
  }

  /** `genTasks`: the task records by id, and the counter the next id is drawn from. */
  class TaskTable {
    var items: map<string, GenTask>
    var nextId: nat

    /** The ids in use are exactly `task_1` .. `task_{nextId-1}`, each record under its own id. */
    ghost predicate Valid()
      reads this
    {
      && nextId >= 1
      && items.Keys == KeysBelow(nextId)
      && forall k :: k in items ==> items[k].taskId == k
    }

    constructor ()
      ensures Valid() && items == map[] && nextId == 1
    {
      items := map[];
      nextId := 1;
      assert KeysBelow(1) == {};
    }

    /** Overwrites the record of an existing task, under its own id. */
    method Put(key: string, t: GenTask)
      requires Valid() && key in items && t.taskId == key
      modifies this
      ensures Valid()
      ensures items == old(items)[key := t] && nextId == old(nextId)
    {
      items := items[key := t];
      assert items.Keys == old(items.Keys);
    }
  }

  /** `genQuota`. Nothing in the back end ever resets `usedToday`. */
  class Quota {
    const dailyLimit: nat
    var usedToday: nat
    const resetAt: int

    ghost predicate Valid()
      reads this
    {
      dailyLimit == DailyLimit && usedToday <= dailyLimit
    }

    constructor (now: int)
      ensures Valid() && usedToday == 0 && resetAt == now + DayMillis
    {
      dailyLimit := DailyLimit;
      usedToday := 0;
      resetAt := now + DayMillis;
    }

    /** A finished generation counts against the quota, saturating at the limit. */
    method CountSuccess()
      requires Valid()
      modifies this
      ensures Valid()
      ensures usedToday == if old(usedToday) + 1 <= dailyLimit then old(usedToday) + 1 else dailyLimit
      ensures old(usedToday) < dailyLimit ==> usedToday == old(usedToday) + 1
      ensures old(usedToday) == dailyLimit ==> usedToday == dailyLimit
    {
      usedToday := if usedToday + 1 <= dailyLimit then usedToday + 1 else dailyLimit;
    }
  }

  /** The `getVideoGenQuota` reply. */
  datatype QuotaSnapshot = QuotaSnapshot(dailyLimit: nat, usedToday: nat, resetAt: int)

  /** The reply of a call that returns no data: `{ success: true }` or `{ success: false, message }`. */
  datatype Ack = Accepted | Refused(message: string)

  /** The stages a retried task may still have queued. */
  predicate RetryPhase(pending: seq<Stage>) {
    pending == RetryStages || pending == RetryStages[1..] || pending == RetryStages[2..] || pending == []
  }

  /** Every task has a timer queue, and its record is in step with it. */
  predicate AllInStep(items: map<string, GenTask>, timers: map<string, seq<Stage>>) {
    forall k :: k in items ==> k in timers && InStep(items[k], timers[k])
  }

  /** A retried task only has retry stages left and is not FAILED. */
  predicate RetriedSettled(retried: set<string>, items: map<string, GenTask>, timers: map<string, seq<Stage>>) {
    forall k :: k in retried ==> k in items && k in timers && RetryPhase(timers[k]) && items[k].status != Failed
  }

  /** Storing a record in step with its new queue keeps both invariants. */
  lemma SchedulePut(items: map<string, GenTask>, timers: map<string, seq<Stage>>, retried: set<string>,
                    k: string, t: GenTask, pending: seq<Stage>)
    requires AllInStep(items, timers) && RetriedSettled(retried, items, timers)
    requires InStep(t, pending)
    requires k in retried ==> RetryPhase(pending) && t.status != Failed
    ensures AllInStep(items[k := t], timers[k := pending])
    ensures RetriedSettled(retried, items[k := t], timers[k := pending])
  {
  }

  /** A task with only retry stages left that is not FAILED may join the retried ones. */
  lemma MarkRetried(retried: set<string>, items: map<string, GenTask>, timers: map<string, seq<Stage>>, k: string)
    requires RetriedSettled(retried, items, timers)
    requires k in items && k in timers && RetryPhase(timers[k]) && items[k].status != Failed
    ensures RetriedSettled(retried + {k}, items, timers)
  {
  }

  /** Firing a retry stage leaves only retry stages and never produces FAILED. */
  lemma RetryPhaseStep(t: GenTask, pending: seq<Stage>, fail: bool, now: int)
    requires InStep(t, pending) && RetryPhase(pending) && pending != []
    ensures RetryPhase(pending[1..]) && ApplyStage(t, pending[0], fail, now).status != Failed
  {
    assert RetryStages[1..][1..] == RetryStages[2..];
  }

  /** Firing the head of one task's queue keeps every task in step, keeps retried tasks settled,
      never lowers that task's progress and only advances its status. */
  lemma FireKeepsInvariants(items: map<string, GenTask>, timers: map<string, seq<Stage>>, retried: set<string>,
                            k: string, fail: bool, now: int)
    requires AllInStep(items, timers) && RetriedSettled(retried, items, timers)
    requires k in items && k in timers && timers[k] != []
    ensures var t' := ApplyStage(items[k], timers[k][0], fail, now);
      && AllInStep(items[k := t'], timers[k := timers[k][1..]])
      && RetriedSettled(retried, items[k := t'], timers[k := timers[k][1..]])
      && items[k].progress <= t'.progress && Advances(items[k].status, t'.status)
  {
    var t, pending := items[k], timers[k];
    StageStep(t, pending, fail, now);
    if k in retried {
      RetryPhaseStep(t, pending, fail, now);
    }
    SchedulePut(items, timers, retried, k, ApplyStage(t, pending[0], fail, now), pending[1..]);
  }

  class Backend {
    const db: Catalog
    const genTasks: TaskTable
    const genQuota: Quota
    /** The timers still queued, by task id. */
    var timers: map<string, seq<Stage>>
    /** The tasks that have been retried. */
    ghost var retried: set<string>

    /** Every task has a timer queue, and its record is in step with it; a retried task never fails again. */
    ghost predicate Valid()
      reads this, db, genTasks, genQuota
    {
      && db.Valid() && genTasks.Valid() && genQuota.Valid()
      && timers.Keys == genTasks.items.Keys
      && AllInStep(genTasks.items, timers)
      && RetriedSettled(retried, genTasks.items, timers)
    }

    /** The module's state at start-up, with `Date.now()` read as `now`. */
    constructor (now: int)
      ensures Valid()
      ensures db.dramas == SeedDramas && db.nextId == FirstCreatedId
      ensures genTasks.items == map[] && genTasks.nextId == 1
      ensures genQuota.usedToday == 0 && genQuota.resetAt == now + DayMillis
      ensures timers == map[]
    {
      db := new Catalog.Seeded();
      genTasks := new TaskTable();
      genQuota := new Quota(now);
      timers := map[];
      retried := {};
    }

    /** `createVideoGenTask({ dramaId, ep, style, duration, voice })` at clock reading `now`;
        an option left out is `None` and takes its default. */
    method CreateVideoGenTask(dramaId: int, ep: int, style: Option<string>, duration: Option<int>, voice: Option<string>, now: int)
      returns (r: Result<string>)
      requires Valid()
      modifies this, genTasks
      ensures Valid()
      ensures old(genQuota.usedToday) >= genQuota.dailyLimit ==>
        && r == Err(QuotaExhaustedMessage)
        && genTasks.items == old(genTasks.items) && genTasks.nextId == old(genTasks.nextId)
        && timers == old(timers)
      ensures old(genQuota.usedToday) < genQuota.dailyLimit ==>
        var id := TaskKey(old(genTasks.nextId));
        && r == Ok(id)
        && id !in old(genTasks.items)
        && genTasks.nextId == old(genTasks.nextId) + 1
        && genTasks.items == old(genTasks.items)[id := NewTask(id, dramaId, ep,
             if style.Some? then style.value else DefaultStyle,
             if duration.Some? then duration.value else DefaultDuration,
             if voice.Some? then voice.value else DefaultVoice, now)]
        && timers == old(timers)[id := FirstRunStages]
      ensures retried == old(retried)
    {
      if genQuota.usedToday >= genQuota.dailyLimit {
        return Err(QuotaExhaustedMessage);
      }
      var n := genTasks.nextId;
      genTasks.nextId := genTasks.nextId + 1;
      var id := TaskKey(n);
      if id in genTasks.items {
        var k: nat :| 1 <= k < n && TaskKey(k) == id;
        TaskKeyInjective(k, n);
      }
      var task := NewTask(id, dramaId, ep,
        if style.Some? then style.value else DefaultStyle,
        if duration.Some? then duration.value else DefaultDuration,
        if voice.Some? then voice.value else DefaultVoice, now);
      NewTaskInStep(id, dramaId, ep, task.style, task.duration, task.voice, now);
      SchedulePut(genTasks.items, timers, retried, id, task, FirstRunStages);
      genTasks.items := genTasks.items[id := task];
      assert KeysBelow(n + 1) == KeysBelow(n) + {id};
      timers := timers[id := FirstRunStages];
      r := Ok(id);
    }

    /** Fires the next timer queued for `taskId` at clock reading `now`; `fail` is the outcome of the
        random draw the first run's last stage makes. Without a queued timer nothing happens. */
    method FireNextTimer(taskId: string, fail: bool, now: int)
      requires Valid()
      modifies this, genTasks, genQuota, db
      ensures Valid()
      ensures retried == old(retried) && genTasks.nextId == old(genTasks.nextId) && db.nextId == old(db.nextId)
      ensures taskId !in old(timers) || old(timers[taskId]) == [] ==>
        && genTasks.items == old(genTasks.items) && timers == old(timers)
        && genQuota.usedToday == old(genQuota.usedToday) && db.dramas == old(db.dramas)
      ensures taskId in old(timers) && old(timers[taskId]) != [] ==>
        var t, stage := old(genTasks.items[taskId]), old(timers[taskId][0]);
        var t' := ApplyStage(t, stage, fail, now);
        && genTasks.items == old(genTasks.items)[taskId := t']
        && timers == old(timers)[taskId := old(timers[taskId][1..])]
        && t.progress <= t'.progress && Advances(t.status, t'.status)
        && (stage == Resolve && !fail ==>
              && genQuota.usedToday == (if old(genQuota.usedToday) + 1 <= DailyLimit then old(genQuota.usedToday) + 1 else DailyLimit)
              && db.dramas == PatchEpisodeVideo(old(db.dramas), t.dramaId, t.ep, GeneratedVideoUrl))
        && (!(stage == Resolve && !fail) ==>
              genQuota.usedToday == old(genQuota.usedToday) && db.dramas == old(db.dramas))
    {
      if taskId !in timers || timers[taskId] == [] {
        return;
      }
      var pending := timers[taskId];
      var t := genTasks.items[taskId];
      FireKeepsInvariants(genTasks.items, timers, retried, taskId, fail, now);
      var t' := ApplyStage(t, pending[0], fail, now);
      genTasks.Put(taskId, t');
      timers := timers[taskId := pending[1..]];
      if pending[0] == Resolve && !fail {
        genQuota.CountSuccess();
        db.PatchEpisode(t.dramaId, t.ep, GeneratedVideoUrl);
      }
    }

    /** `getVideoGenTask(taskId)`: a record in step has progress within 0..100 and an error exactly when FAILED. */
    function GetVideoGenTask(taskId: string): (r: Result<GenTask>)
      reads this, db, genTasks, genQuota
      ensures r.Ok? <==> taskId in genTasks.items
      ensures r.Ok? ==> r.value == genTasks.items[taskId]
      ensures r.Err? ==> r.message == TaskNotFoundMessage
      ensures Valid() && r.Ok? ==>
        && r.value.taskId == taskId
        && 0 <= r.value.progress <= 100
        && (r.value.error.Some? <==> r.value.status == Failed)
        && (r.value.videoUrl.Some? <==> r.value.status == Done)
    {
      if taskId in genTasks.items then
        Ok(genTasks.items[taskId])
      else Err(TaskNotFoundMessage)
    }

    /** `retryVideoGenTask(taskId)`: only a FAILED task is reset and requeued, and a task is retried at most once. */
    method RetryVideoGenTask(taskId: string) returns (r: Ack)
      requires Valid()
      modifies this, genTasks
      ensures Valid()
      ensures genTasks.nextId == old(genTasks.nextId)
      ensures taskId !in old(genTasks.items) ==>
        r == Refused(TaskNotFoundMessage) && genTasks.items == old(genTasks.items) && timers == old(timers) && retried == old(retried)
      ensures taskId in old(genTasks.items) && old(genTasks.items[taskId].status) != Failed ==>
        r == Refused(OnlyFailedRetryMessage) && genTasks.items == old(genTasks.items) && timers == old(timers) && retried == old(retried)
      ensures taskId in old(genTasks.items) && old(genTasks.items[taskId].status) == Failed ==>
        && r == Accepted
        && taskId !in old(retried)
        && old(timers[taskId]) == []
        && genTasks.items == old(genTasks.items)[taskId := ResetForRetry(old(genTasks.items[taskId]))]
        && timers == old(timers)[taskId := RetryStages]
        && retried == old(retried) + {taskId}
    {
      if taskId !in genTasks.items {
        return Refused(TaskNotFoundMessage);
      }
      var t := genTasks.items[taskId];
      if t.status != Failed {
        return Refused(OnlyFailedRetryMessage);
      }
      InStepBounds(t, timers[taskId]);
      ResetInStep(t);
      SchedulePut(genTasks.items, timers, retried, taskId, ResetForRetry(t), RetryStages);
      genTasks.Put(taskId, ResetForRetry(t));
      timers := timers[taskId := RetryStages];
      MarkRetried(retried, genTasks.items, timers, taskId);
      retried := retried + {taskId};
      r := Accepted;
    }

    /** `getVideoGenQuota()`: the used count never exceeds the limit of 20. */
    function GetVideoGenQuota(): (q: QuotaSnapshot)
      reads this, db, genTasks, genQuota
      ensures q.dailyLimit == genQuota.dailyLimit && q.usedToday == genQuota.usedToday && q.resetAt == genQuota.resetAt
      ensures Valid() ==> q.dailyLimit == DailyLimit && q.usedToday <= q.dailyLimit
    {
      QuotaSnapshot(genQuota.dailyLimit, genQuota.usedToday, genQuota.resetAt)
    }

    /** `listVideoGenTasks({ page, pageSize })`: every listed record is a task of the table, and at most
        `pageSize` of them when it is given and non-negative. */
    function ListVideoGenTasks(page: Option<int>, pageSize: Option<int>): (r: TaskPage)
      reads this, genTasks
      ensures forall t :: t in r.tasks ==> t in genTasks.items.Values
      ensures r.total <= genTasks.nextId
      ensures page.Some? && page.value >= 1 && pageSize.Some? && pageSize.value >= 0 ==> |r.tasks| <= pageSize.value
      ensures SortedByStartDesc(r.tasks)
      ensures page.Some? && page.value >= 1 && pageSize.Some? && pageSize.value >= 0 ==>
        var sorted := SortByStartDesc(InCreationOrder(genTasks.items, genTasks.nextId));
        var start, end := PageStart(page.value, pageSize.value), PageStart(page.value, pageSize.value) + pageSize.value;
        && (start < |sorted| ==> r.tasks == sorted[start..if end <= |sorted| then end else |sorted|])
        && (start >= |sorted| ==> r.tasks == [])
    {
      var all := InCreationOrder(genTasks.items, genTasks.nextId);
      var r := ListPage(all, page, pageSize);
      if page.Some? && page.value >= 1 && pageSize.Some? && pageSize.value >= 0 then
        ListPageWindow(all, page.value, pageSize.value);
        r
      else
        SortSortsAndPermutes(all);
        assert forall t :: t in r.tasks ==> t in SortByStartDesc(all);
        assert forall t :: t in SortByStartDesc(all) ==> t in multiset(all);
        r
    }

    /** `total` counts every task ever created: the ids `task_1` .. `task_{nextId-1}`. */
    lemma ListTotalCountsAllTasks(page: Option<int>, pageSize: Option<int>)
      requires Valid()
      ensures ListVideoGenTasks(page, pageSize).total == |genTasks.items| == genTasks.nextId - 1
    {
      KeysBelowCount(genTasks.nextId);
      assert forall k: nat :: 1 <= k < genTasks.nextId ==> TaskKey(k) in KeysBelow(genTasks.nextId);
      assert |genTasks.items| == |genTasks.items.Keys|;
    }

    /** The list the pages are cut from is the table: every stored task, each once, in creation order,
        so its sorted form holds every stored task and nothing else. */
    lemma ListingListsTheTable()
      requires Valid()
      ensures var all := InCreationOrder(genTasks.items, genTasks.nextId);
        && |all| == |genTasks.items| == genTasks.nextId - 1
        && (forall k: nat :: 1 <= k < genTasks.nextId ==> all[k - 1] == genTasks.items[TaskKey(k)])
        && multiset(SortByStartDesc(all)) == multiset(all)
        && forall key :: key in genTasks.items ==> genTasks.items[key] in SortByStartDesc(all)
    {
      var all := InCreationOrder(genTasks.items, genTasks.nextId);
      assert forall k: nat :: 1 <= k < genTasks.nextId ==> TaskKey(k) in KeysBelow(genTasks.nextId);
      KeysBelowCount(genTasks.nextId);
      assert |genTasks.items| == |genTasks.items.Keys|;
      forall key | key in genTasks.items ensures genTasks.items[key] in SortByStartDesc(all) {
        var k: nat :| 1 <= k < genTasks.nextId && TaskKey(k) == key;
        assert all[k - 1] == genTasks.items[key];
        assert genTasks.items[key] in multiset(all);
      }
    }
  }
}
