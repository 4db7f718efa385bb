/** go_job_queue: the id counter, the bounded job channel and the result
    table, run one step at a time. The four worker goroutines become the
    single `ProcessNext` step, which takes the oldest queued job. */
module JobQueue {
  import opened Base
  import opened Text

  /** `make(chan Job, 100)` */
  const Capacity: nat := 100

  datatype Job = Job(id: int, data: string)

  /** `fmt.Sprintf("processed: %s", data)` */
  function Processed(data: string): string {
    "processed: " + data
  }

  /** A result table after storing the results of `jobs`, oldest first. */
  function StoreAll(results: map<int, string>, jobs: seq<Job>): map<int, string>
    decreases |jobs|
  {
    if jobs == [] then results
    else StoreAll(results[jobs[0].id := Processed(jobs[0].data)], jobs[1..])
  }

  /** Storing touches only the ids of the stored jobs. */
  lemma {:induction false} StoreAllKeepsOthers(results: map<int, string>, jobs: seq<Job>, id: int)
    requires forall k :: 0 <= k < |jobs| ==> jobs[k].id != id
    ensures var t := StoreAll(results, jobs);
            (id in t <==> id in results) && (id in results ==> t[id] == results[id])
    decreases |jobs|
  {
    if jobs != [] {
      StoreAllKeepsOthers(results[jobs[0].id := Processed(jobs[0].data)], jobs[1..], id);
    }
  }

  /** Every stored job's id holds its processed data (ids being distinct). */
  lemma {:induction false} StoreAllStores(results: map<int, string>, jobs: seq<Job>, k: int)
    requires 0 <= k < |jobs|
    requires forall a, b :: 0 <= a < b < |jobs| ==> jobs[a].id != jobs[b].id
    ensures var t := StoreAll(results, jobs);
            jobs[k].id in t && t[jobs[k].id] == Processed(jobs[k].data)
    decreases |jobs|
  {
    var next := results[jobs[0].id := Processed(jobs[0].data)];
    if k == 0 {
      StoreAllKeepsOthers(next, jobs[1..], jobs[0].id);
    } else {
      StoreAllStores(next, jobs[1..], k - 1);
    }
  }

  datatype EnqueueReply = BadPayload | Accepted(job: Job)

  datatype ResultReply = BadId | NotReady | Ready(id: int, processed: string)

  /** The HTTP status of a `/result` answer. */
  function ResultStatus(r: ResultReply): (code: int)
    ensures r.BadId? ==> code == 400
    ensures r.NotReady? ==> code == 202
    ensures r.Ready? ==> code == 200
  {
    match r
    case BadId => 400
    case NotReady => 202
    case Ready(_, _) => 200
  }

  class Queue {
    /** `idCounter` */
    var counter: int
    /** the jobs waiting in `jobChan`, oldest first */
    var pending: seq<Job>
    /** `resultMap` */
    var results: map<int, string>
    /** every job ever accepted, in order */
    ghost var submitted: seq<Job>

    /** Ids are 1, 2, 3, … in submission order; the channel holds the
        newest jobs not yet processed; every older job has its result. */
    ghost predicate Valid()
      reads this
    {
      && |pending| <= Capacity
      && counter == |submitted|
      && (forall k :: 0 <= k < |submitted| ==> submitted[k].id == k + 1)
      && |pending| <= |submitted|
      && pending == submitted[|submitted| - |pending|..]
      && (forall id :: id in results <==> 1 <= id <= |submitted| - |pending|)
      && (forall id :: 1 <= id <= |submitted| - |pending| ==> results[id] == Processed(submitted[id - 1].data))
    }

    constructor ()
      ensures Valid()
      ensures counter == 0 && pending == [] && results == map[] && submitted == []
    {
      counter := 0;
      pending := [];
      results := map[];
      submitted := [];
    }

    /** `enqueueHandler`; `payload` is `None` when the body does not decode.
        The channel send blocks on a full channel, so an accepted job needs
        room. */
    method Enqueue(payload: Option<string>) returns (reply: EnqueueReply)
      requires Valid()
      requires payload.Some? ==> |pending| < Capacity
      modifies this
      ensures Valid()
      ensures payload.None? ==> reply == BadPayload && counter == old(counter) && pending == old(pending)
                                && results == old(results) && submitted == old(submitted)
      ensures payload.Some? ==> && reply == Accepted(Job(old(counter) + 1, payload.value))
                                && counter == old(counter) + 1
                                && pending == old(pending) + [reply.job]
                                && results == old(results)
                                && submitted == old(submitted) + [reply.job]
    {
      if payload.None? {
        return BadPayload;
      }
      counter := counter + 1;
      var job := Job(counter, payload.value);
      pending := pending + [job];
      submitted := submitted + [job];
      reply := Accepted(job);
    }

    /** One turn of `worker`: the oldest job's result is stored. */
    method ProcessNext() returns (job: Job)
      requires Valid() && pending != []
      modifies this
      ensures Valid()
      ensures job == old(pending[0])
      ensures pending == old(pending[1..])
      ensures results == old(results)[job.id := Processed(job.data)]
      ensures counter == old(counter) && submitted == old(submitted)
    {
      job := pending[0];
      pending := pending[1..];
      results := results[job.id := Processed(job.data)];
    }

    /** The workers draining the channel until it is empty. */
    method Drain()
      requires Valid()
      modifies this
      ensures Valid()
      ensures pending == []
      ensures results == StoreAll(old(results), old(pending))
      ensures counter == old(counter) && submitted == old(submitted)
    {
      while pending != []
        invariant Valid()
        invariant counter == old(counter) && submitted == old(submitted)
        invariant StoreAll(results, pending) == StoreAll(old(results), old(pending))
        decreases |pending|
      {
        var job := ProcessNext();
      }
    }

    /** `resultHandler`: `idText` is the `id` query parameter. */
    method Lookup(idText: string) returns (r: ResultReply)
      ensures Atoi(idText).None? ==> r == BadId
      ensures Atoi(idText).Some? && Atoi(idText).value !in results ==> r == NotReady
      ensures Atoi(idText).Some? && Atoi(idText).value in results ==>
                r == Ready(Atoi(idText).value, results[Atoi(idText).value])
    {
      var id := Atoi(idText);
      if id.None? {
        return BadId;
      }
      if id.value in results {
        r := Ready(id.value, results[id.value]);
      } else {
        r := NotReady;
      }
    }
  }

  /** Ids strictly increase in submission order. */
  lemma IdsIncrease(q: Queue)
    requires q.Valid()
    ensures forall a, b :: 0 <= a < b < |q.submitted| ==> q.submitted[a].id < q.submitted[b].id
  {
  }

  /** Once its job is processed, a submitted job's id reads back its data. */
  lemma ProcessedJobReadsBack(q: Queue, k: int, idText: string)
    requires q.Valid()
    requires 0 <= k < |q.submitted| - |q.pending|
    requires idText == NatToString(k + 1) && k + 1 < I64Limit
    ensures Atoi(idText) == Some(k + 1)
    ensures k + 1 in q.results && q.results[k + 1] == "processed: " + q.submitted[k].data
  {
    AtoiOfNatToString(k + 1);
  }

  /** A job still in the channel has no result yet: its lookup is 202. */
  lemma PendingJobNotReady(q: Queue, k: int)
    requires q.Valid()
    requires 0 <= k < |q.pending|
    ensures q.pending[k].id !in q.results
  {
    var n := |q.submitted| - |q.pending|;
    assert q.pending[k] == q.submitted[n + k];
  }
}
