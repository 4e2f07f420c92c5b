/**
 * `src/lib/server/jobQueue.ts`: the in-memory job records, keyed by id.
 * The random id and the clock are parameters.
 */
module JobQueue {
  import opened Wrappers

  datatype Status = Pending | Processing | Completed | Failed

  /** A job record. `result` and `error` are the optional fields; a field
      that was never set is `None`. */
  datatype Job<R> = Job(id: string, status: Status, result: Option<R>, error: Option<string>, createdAt: int)

  /** `if (error)`: a string is truthy when it is given and not "". */
  predicate Truthy(s: Option<string>) {
    s.Some? && s.value != ""
  }

  /** The record `createJob` stores. */
  function NewJob<R>(id: string, now: int): Job<R> {
    Job(id, Pending, None, None, now)
  }

  /**
   * The records after `updateJob(id, status, result, error)`. `result` is
   * `None` for any falsy argument. An unknown id changes nothing; otherwise
   * the status is overwritten whatever it was, and `result`/`error` are
   * replaced only by truthy values.
   */
  function Updated<R>(jobs: map<string, Job<R>>, id: string, status: Status,
                      result: Option<R>, error: Option<string>): (r: map<string, Job<R>>)
    ensures r.Keys == jobs.Keys
    ensures id !in jobs ==> r == jobs
    ensures id in jobs ==>
      && r[id].status == status
      && r[id].id == jobs[id].id && r[id].createdAt == jobs[id].createdAt
      && r[id].result == (if result.Some? then result else jobs[id].result)
      && r[id].error == (if Truthy(error) then error else jobs[id].error)
    ensures forall k :: k in jobs && k != id ==> r[k] == jobs[k]
  {
    if id in jobs then
      var j := jobs[id];
      jobs[id := j.(status := status,
                    result := if result.Some? then result else j.result,
                    error := if Truthy(error) then error else j.error)]
    else jobs
  }

  /** No terminal-state guard: a completed or failed job can be sent back to any status. */
  lemma StatusNotGuarded<R>(jobs: map<string, Job<R>>, id: string, status: Status)
    requires id in jobs && (jobs[id].status == Completed || jobs[id].status == Failed)
    ensures Updated(jobs, id, status, None, None)[id].status == status
    ensures Updated(jobs, id, status, None, None)[id].result == jobs[id].result
  {
  }

  /** Repeating an update changes nothing more. */
  lemma UpdateIdempotent<R>(jobs: map<string, Job<R>>, id: string, status: Status,
                            result: Option<R>, error: Option<string>)
    ensures var once := Updated(jobs, id, status, result, error);
      Updated(once, id, status, result, error) == once
  {
    var once := Updated(jobs, id, status, result, error);
    if id in jobs {
      assert Updated(once, id, status, result, error)[id] == once[id];
    }
  }

  /** Updates of different ids do not interfere. */
  lemma UpdatesCommute<R>(jobs: map<string, Job<R>>, id1: string, s1: Status, r1: Option<R>, e1: Option<string>,
                          id2: string, s2: Status, r2: Option<R>, e2: Option<string>)
    requires id1 != id2
    ensures Updated(Updated(jobs, id1, s1, r1, e1), id2, s2, r2, e2)
         == Updated(Updated(jobs, id2, s2, r2, e2), id1, s1, r1, e1)
  {
    var a := Updated(Updated(jobs, id1, s1, r1, e1), id2, s2, r2, e2);
    var b := Updated(Updated(jobs, id2, s2, r2, e2), id1, s1, r1, e1);
    assert a.Keys == b.Keys;
    forall k | k in a.Keys ensures a[k] == b[k] {
    }
  }

  /** The module-level `jobs` record, as an object. */
  class JobStore<R> {
    var jobs: map<string, Job<R>>

    constructor ()
      ensures jobs == map[]
    {
      jobs := map[];
    }

    /** `createJob()`: `freshId` is the random id, `now` the clock. An id
        already in use is overwritten, as the assignment in the source does. */
    method CreateJob(freshId: string, now: int) returns (id: string)
      modifies this
      ensures id == freshId
      ensures jobs == old(jobs)[id := NewJob(id, now)]
      ensures GetJob(id) == Some(Job(id, Pending, None, None, now))
      ensures forall k :: k in old(jobs) && k != id ==> k in jobs && jobs[k] == old(jobs)[k]
    {
      id := freshId;
      jobs := jobs[id := NewJob(id, now)];
    }

    /** `updateJob(id, status, result, error)`, one field assignment at a time. */
    method UpdateJob(id: string, status: Status, result: Option<R>, error: Option<string>)
      modifies this
      ensures jobs == Updated(old(jobs), id, status, result, error)
    {
      if id in jobs {
        ghost var j := jobs[id];
        jobs := jobs[id := jobs[id].(status := status)];
        if result.Some? {
          jobs := jobs[id := jobs[id].(result := result)];
        }
        if Truthy(error) {
          jobs := jobs[id := jobs[id].(error := error)];
        }
        assert jobs == old(jobs)[id := j.(status := status,
                                          result := if result.Some? then result else j.result,
                                          error := if Truthy(error) then error else j.error)];
      }
    }

    /** `getJob(id)`: the record, or `None` for `undefined`. */
    function GetJob(id: string): (r: Option<Job<R>>)
      reads this
      ensures r.Some? <==> id in jobs
      ensures r.Some? ==> r.value == jobs[id]
    {
      if id in jobs then Some(jobs[id]) else None
    }
  }
}
