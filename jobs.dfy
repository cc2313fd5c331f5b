/**
 * The reminder job table: the scheduler's job store as the bot uses it.
 * A job carries its id, a name (the owning chat's id as text), the instant
 * it fires at and its arguments `[chat_id, message]`. `/hatirlat` adds a
 * job, `/liste` shows the caller's jobs and `/iptal` removes one of them.
 */
module Jobs {
  import opened Wrappers
  import opened Text
  import Reminder

  type JobId = string

  datatype Job = Job(id: JobId, name: string, runAt: Reminder.Instant, chatId: int, message: string)

  /** The tag the bot stores in a job's name: `str(chat_id)`. */
  function Tag(chatId: int): (r: string)
    ensures r != [] && (r[0] == '-' <==> chatId < 0)
  {
    IntToString(chatId)
  }

  /** The tag identifies the chat: two chats never share one. */
  lemma TagIdentifiesChat(a: int, b: int)
    ensures Tag(a) == Tag(b) <==> a == b
  {
    if Tag(a) == Tag(b) {
      IntToStringInjective(a, b);
    }
  }

  function Ids(jobs: seq<Job>): set<JobId>
  {
    set j | j in jobs :: j.id
  }

  /** No two jobs in the store share an id. */
  predicate DistinctIds(jobs: seq<Job>)
  {
    jobs == [] || (jobs[0].id !in Ids(jobs[1..]) && DistinctIds(jobs[1..]))
  }

  /** Every job's name is the tag of the chat it delivers to. */
  predicate Tagged(jobs: seq<Job>)
  {
    forall j :: j in jobs ==> j.name == Tag(j.chatId)
  }

  /** `scheduler.get_job(id)`: the job with that id, if there is one. */
  function Find(jobs: seq<Job>, id: JobId): (r: Option<Job>)
    ensures r.None? <==> id !in Ids(jobs)
    ensures r.Some? ==> r.value in jobs && r.value.id == id
  {
    if jobs == [] then None
    else if jobs[0].id == id then Some(jobs[0])
    else
      assert Ids(jobs) == {jobs[0].id} + Ids(jobs[1..]);
      Find(jobs[1..], id)
  }

  /** With distinct ids, the job found is the only one carrying that id. */
  lemma FindUnique(jobs: seq<Job>, j: Job)
    requires DistinctIds(jobs) && j in jobs
    ensures Find(jobs, j.id) == Some(j)
  {
    if jobs[0] != j {
      assert j in jobs[1..];
      assert j.id in Ids(jobs[1..]);
      FindUnique(jobs[1..], j);
    }
  }

  /** Line 228: the jobs whose name is `tag`, in store order. */
  function OwnedBy(jobs: seq<Job>, tag: string): (r: seq<Job>)
    ensures forall j :: j in r <==> j in jobs && j.name == tag
    ensures |r| <= |jobs|
  {
    if jobs == [] then []
    else
      var rest := OwnedBy(jobs[1..], tag);
      assert forall j :: j in jobs <==> j == jobs[0] || j in jobs[1..];
      if jobs[0].name == tag then [jobs[0]] + rest else rest
  }

  /** The filter keeps store order: it distributes over concatenation. */
  lemma {:induction false} OwnedByAppend(a: seq<Job>, b: seq<Job>, tag: string)
    ensures OwnedBy(a + b, tag) == OwnedBy(a, tag) + OwnedBy(b, tag)
  {
    if a == [] {
      assert a + b == b;
    } else {
      assert (a + b)[1..] == a[1..] + b;
      OwnedByAppend(a[1..], b, tag);
    }
  }

  /** `scheduler.remove_job(id)`: the store without the job carrying `id`. */
  function WithoutId(jobs: seq<Job>, id: JobId): (r: seq<Job>)
    ensures forall j :: j in r <==> j in jobs && j.id != id
    ensures Ids(r) == Ids(jobs) - {id}
  {
    if jobs == [] then []
    else
      var rest := WithoutId(jobs[1..], id);
      assert forall j :: j in jobs <==> j == jobs[0] || j in jobs[1..];
      if jobs[0].id == id then rest else [jobs[0]] + rest
  }

  /** Removing an id that is not in the store changes nothing. */
  lemma {:induction false} WithoutAbsentId(jobs: seq<Job>, id: JobId)
    requires id !in Ids(jobs)
    ensures WithoutId(jobs, id) == jobs
  {
    if jobs != [] {
      assert jobs[0] in jobs;
      assert Ids(jobs[1..]) <= Ids(jobs);
      WithoutAbsentId(jobs[1..], id);
    }
  }

  /**
   * Removing the id of a job that is the only one carrying it takes out
   * exactly that job and keeps every other job, in order.
   */
  lemma {:induction false} WithoutIdSplice(a: seq<Job>, job: Job, b: seq<Job>)
    requires job.id !in Ids(a) && job.id !in Ids(b)
    ensures WithoutId(a + [job] + b, job.id) == a + b
  {
    if a == [] {
      assert a + [job] + b == [job] + b;
      assert ([job] + b)[1..] == b;
      WithoutAbsentId(b, job.id);
    } else {
      assert (a + [job] + b)[1..] == a[1..] + [job] + b;
      assert a[0] in a;
      assert Ids(a[1..]) <= Ids(a);
      WithoutIdSplice(a[1..], job, b);
      assert a + b == [a[0]] + (a[1..] + b);
    }
  }

  /** In a store with distinct ids, every job is the only one carrying its id. */
  lemma {:induction false} DistinctSplit(jobs: seq<Job>, k: nat)
    requires DistinctIds(jobs) && k < |jobs|
    ensures jobs[k].id !in Ids(jobs[..k]) && jobs[k].id !in Ids(jobs[k + 1..])
  {
    if k == 0 {
      assert jobs[1..] == jobs[k + 1..];
    } else {
      DistinctSplit(jobs[1..], k - 1);
      assert jobs[1..][k - 1] == jobs[k];
      assert jobs[1..][k - 1 + 1..] == jobs[k + 1..];
      assert jobs[..k] == [jobs[0]] + jobs[1..][..k - 1];
      assert jobs[0].id != jobs[k].id by {
        assert jobs[k] in jobs[1..];
      }
    }
  }

  /**
   * In a store with distinct ids, removing the id of the job at index `k`
   * takes out that job alone and keeps the others in order.
   */
  lemma RemoveOnlyThatJob(jobs: seq<Job>, k: nat)
    requires DistinctIds(jobs) && k < |jobs|
    ensures WithoutId(jobs, jobs[k].id) == jobs[..k] + jobs[k + 1..]
  {
    DistinctSplit(jobs, k);
    assert jobs == jobs[..k] + [jobs[k]] + jobs[k + 1..];
    WithoutIdSplice(jobs[..k], jobs[k], jobs[k + 1..]);
  }

  /** Removing a job keeps the ids distinct. */
  lemma {:induction false} WithoutIdDistinct(jobs: seq<Job>, id: JobId)
    requires DistinctIds(jobs)
    ensures DistinctIds(WithoutId(jobs, id))
  {
    if jobs != [] {
      WithoutIdDistinct(jobs[1..], id);
    }
  }

  // ------------------------------------------------------------- run order

  /** The store's order: by the instant each job fires at, earliest first. */
  predicate ByRunTime(jobs: seq<Job>)
  {
    forall a, b :: 0 <= a < b < |jobs| ==> jobs[a].runAt <= jobs[b].runAt
  }

  /**
   * `scheduler.add_job`: the new job goes in before the first job that
   * fires strictly later, so after every job firing at the same time or
   * earlier. The store gains that job and loses none.
   */
  function Insert(jobs: seq<Job>, job: Job): (r: seq<Job>)
    ensures |r| == |jobs| + 1
    ensures forall j :: j in r <==> j in jobs || j == job
  {
    if jobs == [] || job.runAt < jobs[0].runAt then [job] + jobs
    else
      assert forall j :: j in jobs <==> j == jobs[0] || j in jobs[1..];
      [jobs[0]] + Insert(jobs[1..], job)
  }

  /** Inserting is a permutation of the old store plus the new job: nothing is lost or duplicated. */
  lemma {:induction false} InsertPermutes(jobs: seq<Job>, job: Job)
    ensures multiset(Insert(jobs, job)) == multiset(jobs) + multiset{job}
  {
    if jobs != [] && job.runAt >= jobs[0].runAt {
      InsertPermutes(jobs[1..], job);
      assert jobs == [jobs[0]] + jobs[1..];
    }
  }

  /** `r` is `jobs` with `job` placed at `k`: after the jobs not later than it, before the first later one. */
  ghost predicate InsertsAt(jobs: seq<Job>, job: Job, r: seq<Job>, k: int)
  {
    && 0 <= k <= |jobs|
    && r == jobs[..k] + [job] + jobs[k..]
    && (forall i :: 0 <= i < k ==> jobs[i].runAt <= job.runAt)
    && (k < |jobs| ==> job.runAt < jobs[k].runAt)
  }

  /** Where the new job lands: after every earlier-or-equal job up to the first later one. */
  lemma {:induction false} InsertPosition(jobs: seq<Job>, job: Job)
    ensures exists k :: InsertsAt(jobs, job, Insert(jobs, job), k)
  {
    var r := Insert(jobs, job);
    if jobs == [] || job.runAt < jobs[0].runAt {
      assert r == jobs[..0] + [job] + jobs[0..];
      assert InsertsAt(jobs, job, r, 0);
    } else {
      var t := jobs[1..];
      InsertPosition(t, job);
      var k :| InsertsAt(t, job, Insert(t, job), k);
      assert r == [jobs[0]] + Insert(t, job);
      assert jobs[..k + 1] == [jobs[0]] + t[..k];
      assert jobs[k + 1..] == t[k..];
      assert r == jobs[..k + 1] + [job] + jobs[k + 1..];
      forall i | 0 <= i < k + 1
        ensures jobs[i].runAt <= job.runAt
      {
        if i > 0 {
          assert jobs[i] == t[i - 1];
        }
      }
      assert k + 1 < |jobs| ==> jobs[k + 1] == t[k];
      assert InsertsAt(jobs, job, r, k + 1);
    }
  }

  /** Inserting keeps the store ordered by run time. */
  lemma {:induction false} InsertByRunTime(jobs: seq<Job>, job: Job)
    requires ByRunTime(jobs)
    ensures ByRunTime(Insert(jobs, job))
  {
    var r := Insert(jobs, job);
    if jobs == [] || job.runAt < jobs[0].runAt {
      forall a, b | 0 <= a < b < |r|
        ensures r[a].runAt <= r[b].runAt
      {
        if a > 0 {
          assert r[a] == jobs[a - 1] && r[b] == jobs[b - 1];
        } else {
          assert r[b] == jobs[b - 1];
        }
      }
    } else {
      var t := jobs[1..];
      InsertByRunTime(t, job);
      var rt := Insert(t, job);
      assert r == [jobs[0]] + rt;
      forall a, b | 0 <= a < b < |r|
        ensures r[a].runAt <= r[b].runAt
      {
        if a > 0 {
          assert r[a] == rt[a - 1] && r[b] == rt[b - 1];
        } else {
          assert r[b] in rt;
          if r[b] != job {
            var i :| 0 <= i < |t| && t[i] == r[b];
            assert t[i] == jobs[i + 1];
          }
        }
      }
    }
  }

  /** Inserting a job with a fresh id keeps the ids distinct and adds that id. */
  lemma {:induction false} InsertDistinct(jobs: seq<Job>, job: Job)
    requires DistinctIds(jobs) && job.id !in Ids(jobs)
    ensures DistinctIds(Insert(jobs, job))
    ensures Ids(Insert(jobs, job)) == Ids(jobs) + {job.id}
  {
    if jobs != [] && job.runAt >= jobs[0].runAt {
      var t := jobs[1..];
      assert jobs[0] in jobs;
      assert Ids(t) <= Ids(jobs);
      InsertDistinct(t, job);
      assert Insert(jobs, job)[1..] == Insert(t, job);
    } else {
      assert ([job] + jobs)[1..] == jobs;
    }
  }

  /** Filtering keeps the run-time order, so a chat's listing comes earliest first. */
  lemma {:induction false} OwnedByRunTime(jobs: seq<Job>, tag: string)
    requires ByRunTime(jobs)
    ensures ByRunTime(OwnedBy(jobs, tag))
  {
    if jobs != [] {
      var t := jobs[1..];
      OwnedByRunTime(t, tag);
      var rt := OwnedBy(t, tag);
      if jobs[0].name == tag {
        var r := [jobs[0]] + rt;
        forall a, b | 0 <= a < b < |r|
          ensures r[a].runAt <= r[b].runAt
        {
          if a > 0 {
            assert r[a] == rt[a - 1] && r[b] == rt[b - 1];
          } else {
            assert r[b] in rt;
            var i :| 0 <= i < |t| && t[i] == r[b];
            assert t[i] == jobs[i + 1];
          }
        }
      }
    }
  }

  /** Removing a job keeps the run-time order. */
  lemma {:induction false} WithoutIdRunTime(jobs: seq<Job>, id: JobId)
    requires ByRunTime(jobs)
    ensures ByRunTime(WithoutId(jobs, id))
  {
    if jobs != [] {
      var t := jobs[1..];
      WithoutIdRunTime(t, id);
      var rt := WithoutId(t, id);
      if jobs[0].id != id {
        var r := [jobs[0]] + rt;
        forall a, b | 0 <= a < b < |r|
          ensures r[a].runAt <= r[b].runAt
        {
          if a > 0 {
            assert r[a] == rt[a - 1] && r[b] == rt[b - 1];
          } else {
            assert r[b] in rt;
            var i :| 0 <= i < |t| && t[i] == r[b];
            assert t[i] == jobs[i + 1];
          }
        }
      }
    }
  }

  /** A chat's listing holds exactly the stored jobs that deliver to that chat. */
  lemma ListingIsOwnJobs(jobs: seq<Job>, chatId: int)
    requires Tagged(jobs)
    ensures forall j :: j in OwnedBy(jobs, Tag(chatId)) <==> j in jobs && j.chatId == chatId
  {
    forall j | j in jobs
      ensures j.name == Tag(chatId) <==> j.chatId == chatId
    {
      TagIdentifiesChat(j.chatId, chatId);
    }
  }

  datatype CancelOutcome =
    | CancelUsage          // no id given
    | NotFound             // no job with that id
    | NotOwned             // the job belongs to another chat
    | Cancelled(id: JobId) // removed

  const NoRemindersReply: string := "\U{1F4ED} Aktif hatırlatmanız yok."
  const ListHeader: string := "\U{1F4CB} **Aktif Hatırlatmalar:**\n"

  /** One line of the listing; `timeText` stands for the time formatting. */
  function ListLine(job: Job, timeText: Reminder.Instant -> string): (r: string)
    ensures r != [] && r[0] == '\U{2022}' && r[|r| - 1] == '\n'
  {
    "\U{2022} `" + job.id + "`: " + timeText(job.runAt) + " - " + job.message + "\n"
  }

  /**
   * A listing line names the job by the id `/iptal` takes, in backticks,
   * then shows when it fires and, after ` - `, its message.
   */
  lemma ListLineShowsJob(job: Job, timeText: Reminder.Instant -> string)
    ensures var r := ListLine(job, timeText);
      var n := |job.id|;
      var t := timeText(job.runAt);
      && |r| == 10 + n + |t| + |job.message|
      && r[..3] == "\U{2022} `" && r[3..3 + n] == job.id && r[3 + n..6 + n] == "`: "
      && r[6 + n..6 + n + |t|] == t
      && r[6 + n + |t|..|r| - 1] == " - " + job.message
  {
  }

  /** The lines of the listing for `jobs`, in order. */
  function ListLines(jobs: seq<Job>, timeText: Reminder.Instant -> string): (r: string)
    ensures r == [] <==> jobs == []
  {
    if jobs == [] then [] else ListLines(jobs[..|jobs| - 1], timeText) + ListLine(jobs[|jobs| - 1], timeText)
  }

  /** The listing of two runs of jobs is the listing of the first followed by that of the second. */
  lemma {:induction false} ListLinesAppend(a: seq<Job>, b: seq<Job>, timeText: Reminder.Instant -> string)
    ensures ListLines(a + b, timeText) == ListLines(a, timeText) + ListLines(b, timeText)
  {
    if b != [] {
      assert (a + b)[..|a + b| - 1] == a + b[..|b| - 1];
      assert (a + b)[|a + b| - 1] == b[|b| - 1];
      ListLinesAppend(a, b[..|b| - 1], timeText);
    } else {
      assert a + b == a;
    }
  }

  /** Lines 230-237: the reply to `/liste` for the caller's jobs. */
  method ListReply(userJobs: seq<Job>, timeText: Reminder.Instant -> string) returns (reply: string)
    ensures userJobs == [] ==> reply == NoRemindersReply
    ensures userJobs != [] ==> reply == ListHeader + ListLines(userJobs, timeText)
  {
    if userJobs == [] {
      return NoRemindersReply;
    }
    reply := ListHeader;
    for i := 0 to |userJobs|
      invariant reply == ListHeader + ListLines(userJobs[..i], timeText)
    {
      assert userJobs[..i + 1][..i] == userJobs[..i];
      reply := reply + ListLine(userJobs[i], timeText);
    }
    assert userJobs[..|userJobs|] == userJobs;
  }

  /** The bot's scheduler, reduced to its job store. */
  class Scheduler {
    var jobs: seq<Job>

    ghost predicate Valid()
      reads this
    {
      DistinctIds(jobs) && Tagged(jobs) && ByRunTime(jobs)
    }

    /**
     * Lines 44-47: the store opens on whatever the job database already
     * holds, which is empty on the first run.
     */
    constructor (jobs0: seq<Job>)
      requires DistinctIds(jobs0) && Tagged(jobs0) && ByRunTime(jobs0)
      ensures Valid() && jobs == jobs0
    {
      jobs := jobs0;
    }

    /**
     * Lines 208-213: a job for `chatId` under the given fresh id, named
     * after the chat, placed in the store by its run time.
     */
    method AddJob(id: JobId, runAt: Reminder.Instant, chatId: int, message: string) returns (job: Job)
      requires Valid() && id !in Ids(jobs)
      modifies this
      ensures Valid()
      ensures job == Job(id, Tag(chatId), runAt, chatId, message)
      ensures jobs == Insert(old(jobs), job)
    {
      job := Job(id, Tag(chatId), runAt, chatId, message);
      InsertDistinct(jobs, job);
      InsertByRunTime(jobs, job);
      jobs := Insert(jobs, job);
    }

    /** Line 259: the job carrying `id` leaves the store. */
    method RemoveJob(id: JobId)
      requires Valid() && id in Ids(jobs)
      modifies this
      ensures Valid()
      ensures jobs == WithoutId(old(jobs), id)
    {
      WithoutIdDistinct(jobs, id);
      WithoutIdRunTime(jobs, id);
      jobs := WithoutId(jobs, id);
    }

    /**
     * `/hatirlat`: parse the request and, when it is accepted, add a job
     * under the id the store hands out (`newId`); otherwise the store is
     * left alone.
     */
    method ScheduleMessage(args: seq<string>, chatId: int, extraction: Reminder.Extraction,
                           now: Reminder.Instant, recheck: Reminder.Instant, newId: JobId)
      returns (outcome: Reminder.Outcome, job: Option<Job>)
      requires Valid() && newId !in Ids(jobs)
      modifies this
      ensures Valid()
      ensures outcome == Reminder.ParseReminder(args, extraction, now, recheck)
      ensures outcome.Ready? ==>
        && job == Some(Job(newId, Tag(chatId), outcome.runAt, chatId, outcome.message))
        && jobs == Insert(old(jobs), job.value)
      ensures !outcome.Ready? ==> job == None && jobs == old(jobs)
    {
      outcome := Reminder.ParseReminder(args, extraction, now, recheck);
      if outcome.Ready? {
        var added := AddJob(newId, outcome.runAt, chatId, outcome.message);
        job := Some(added);
      } else {
        job := None;
      }
    }

    /** `/liste`, lines 225-228: the caller's jobs, earliest first, and no other chat's. */
    method ListJobs(chatId: int) returns (userJobs: seq<Job>)
      requires Valid()
      ensures userJobs == OwnedBy(jobs, Tag(chatId))
      ensures forall j :: j in userJobs <==> j in jobs && j.chatId == chatId
      ensures ByRunTime(userJobs)
    {
      userJobs := OwnedBy(jobs, Tag(chatId));
      ListingIsOwnJobs(jobs, chatId);
      OwnedByRunTime(jobs, Tag(chatId));
    }

    /**
     * `/iptal`, lines 243-259: without an id, the usage reply; an unknown
     * id, "not found"; another chat's job, "not owned"; otherwise that one
     * job is removed. Only the last case changes the store.
     */
    method CancelJob(args: seq<string>, chatId: int) returns (outcome: CancelOutcome)
      requires Valid()
      modifies this
      ensures Valid()
      ensures args == [] ==> outcome == CancelUsage
      ensures args != [] && args[0] !in Ids(old(jobs)) ==> outcome == NotFound
      ensures args != [] && args[0] in Ids(old(jobs)) ==>
        outcome == if Find(old(jobs), args[0]).value.chatId == chatId then Cancelled(args[0]) else NotOwned
      ensures outcome.Cancelled? ==> jobs == WithoutId(old(jobs), outcome.id) && outcome.id !in Ids(jobs)
      ensures !outcome.Cancelled? ==> jobs == old(jobs)
    {
      if args == [] {
        return CancelUsage;
      }
      var id := args[0];
      var chatTag := Tag(chatId);
      var found := Find(jobs, id);
      if found.None? {
        return NotFound;
      }
      var job := found.value;
      TagIdentifiesChat(job.chatId, chatId);
      if job.name != chatTag {
        return NotOwned;
      }
      RemoveJob(id);
      outcome := Cancelled(id);
    }
  }

  /**
   * Cancelling twice: after a successful cancel the same request finds
   * nothing; after a refusal it is refused again in the same way.
   */
  method CancelTwice(s: Scheduler, args: seq<string>, chatId: int) returns (first: CancelOutcome, second: CancelOutcome)
    requires s.Valid()
    modifies s
    ensures s.Valid()
    ensures first.Cancelled? ==> second == NotFound
    ensures !first.Cancelled? ==> second == first && s.jobs == old(s.jobs)
  {
    first := s.CancelJob(args, chatId);
    second := s.CancelJob(args, chatId);
  }
}
