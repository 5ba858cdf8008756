/** Run summaries by id, in the order their ids were first seen, listed newest first. */
module RunStore {
  import opened Common
  import opened LinkedMaps

  datatype RunSummary = RunSummary(
    id: Option<Uuid>, source: string, state: string, startedAt: int, finishedAt: Option<int>, runLabel: string,
    threads: int, iterations: int, capturedSamples: int, errorSamples: int, restored: bool)
  {
    function AsRestored(): RunSummary {
      this.(restored := true)
    }
  }

  type Runs = LinkedMap<Option<Uuid>, RunSummary>

  class RunRepository {
    var runs: Runs

    constructor ()
      ensures runs == Empty
    {
      runs := Empty;
    }

    /** A known id keeps its place and takes the new summary, a new one goes to the end, and no other run changes. */
    method Upsert(run: RunSummary)
      modifies this
      ensures runs == old(runs).Put(run.id, run)
      ensures runs.Keys() == if old(runs).Has(run.id) then old(runs).Keys() else old(runs).Keys() + [run.id]
      ensures forall id :: runs.Get(id) == if id == run.id then Some(run) else old(runs).Get(id)
    {
      PutKeys(runs, run.id, run);
      forall id
        ensures runs.Put(run.id, run).Get(id) == if id == run.id then Some(run) else runs.Get(id)
      {
        GetPut(runs, run.id, run, id);
      }
      runs := runs.Put(run.id, run);
    }

    function Lookup(id: Option<Uuid>): Option<RunSummary>
      reads this
    {
      runs.Get(id)
    }

    function Recent(): seq<RunSummary>
      reads this
    {
      Reverse(runs.Values())
    }

    method Clear()
      modifies this
      ensures runs == Empty
    {
      runs := Empty;
    }
  }
}
