/** The job_runs table and the statements that change it (packages/scheduler/src/run-tracker.ts). */
module RunTracker {
  import opened Common

  datatype Status = Pending | Running | Succeeded | CompletedWithReview | Failed | DeadLetter

  /** Top-level keys of the jsonb metadata: those that bind a run to its hand-off, and all others. */
  datatype MetadataKey =
    | CatalogBatchId | SociosBatchId | PreviewId | Fingerprint | IdempotencyKey | LeaseOwner | LeaseFence
    | Other(name: string)

  type Metadata = map<MetadataKey, string>

  datatype Row = Row(jobName: string, status: Status, attempt: nat, metadata: Metadata, error: Option<string>)

  type Rows = map<nat, Row>

  /** What recordFinish is asked to write; an absent field is left as it is. */
  datatype Finish = Finish(status: Status, error: Option<string>, attempt: Option<nat>, metadata: Option<Metadata>)

  const BINDING_METADATA_KEYS: set<MetadataKey> :=
    {CatalogBatchId, SociosBatchId, PreviewId, Fingerprint, IdempotencyKey, LeaseOwner, LeaseFence}

  datatype Op =
    | Start(id: nat, jobName: string, metadata: Metadata)
    | SetRunning(id: nat)
    | Close(id: nat, finish: Finish)
    | MarkShutdown

  predicate SuccessLike(s: Status) { s.Succeeded? || s.CompletedWithReview? }

  function Restrict(m: Metadata, keys: set<MetadataKey>): Metadata {
    map k | k in m && k in keys :: m[k]
  }

  function Finished(row: Row, f: Finish): Row {
    row.(status := f.status,
         error := if f.error.Some? then f.error else row.error,
         attempt := if f.attempt.Some? then f.attempt.value else row.attempt,
         metadata := if f.metadata.Some? then f.metadata.value + Restrict(row.metadata, BINDING_METADATA_KEYS)
                     else row.metadata)
  }

  function SweptRow(row: Row): Row {
    if row.status.Running? then row.(status := Failed, error := Some("process shutdown")) else row
  }

  function Apply(rows: Rows, op: Op): Rows {
    match op
    case Start(id, name, metadata) =>
      if id in rows then rows else rows[id := Row(name, Pending, 1, metadata, None)]
    case SetRunning(id) => if id in rows then rows[id := rows[id].(status := Running)] else rows
    case Close(id, f) => if id in rows then rows[id := Finished(rows[id], f)] else rows
    case MarkShutdown => map id | id in rows :: SweptRow(rows[id])
  }

  class JobRuns {
    var rows: Rows

    constructor ()
      ensures rows == map[]
    {
      rows := map[];
    }

    /** recordStart. `id` is the row id the database generates: one that no row has. */
    method RecordStart(id: nat, jobName: string, metadata: Metadata)
      requires id !in rows
      modifies this
      ensures rows == old(rows)[id := Row(jobName, Pending, 1, metadata, None)]
      ensures rows == Apply(old(rows), Start(id, jobName, metadata))
    {
      rows := rows[id := Row(jobName, Pending, 1, metadata, None)];
    }

    method RecordRunning(id: nat)
      modifies this
      ensures rows.Keys == old(rows).Keys
      ensures forall x <- rows :: rows[x] == if x == id then old(rows)[x].(status := Running) else old(rows)[x]
      ensures rows == Apply(old(rows), SetRunning(id))
    {
      if id in rows {
        rows := rows[id := rows[id].(status := Running)];
      }
    }

    /** recordFinish builds its patch field by field; the binding keys of the stored metadata win. */
    method RecordFinish(id: nat, input: Finish) returns (found: Option<Row>)
      modifies this
      ensures rows.Keys == old(rows).Keys && forall x <- rows :: x != id ==> rows[x] == old(rows)[x]
      ensures id in rows ==>
                var before, after := old(rows)[id], rows[id];
                && after.jobName == before.jobName && after.status == input.status
                && (if input.error.Some? then after.error == input.error else after.error == before.error)
                && (if input.attempt.Some? then after.attempt == input.attempt.value else after.attempt == before.attempt)
                && (input.metadata.None? ==> after.metadata == before.metadata)
                && (input.metadata.Some? ==> forall k: MetadataKey ::
                      var source := if !k.Other? && k in before.metadata then before.metadata else input.metadata.value;
                      (k in after.metadata <==> k in source) && (k in source ==> after.metadata[k] == source[k]))
      ensures rows == Apply(old(rows), Close(id, input))
      ensures found == if id in rows then Some(rows[id]) else None
    {
      if id !in rows {
        return None;
      }
      var patched := rows[id].(status := input.status);
      if input.error.Some? {
        patched := patched.(error := input.error);
      }
      if input.attempt.Some? {
        patched := patched.(attempt := input.attempt.value);
      }
      if input.metadata.Some? {
        var initial := rows[id].metadata;
        var binding := map k | k in initial && k in BINDING_METADATA_KEYS :: initial[k];
        patched := patched.(metadata := input.metadata.value + binding);
      }
      rows := rows[id := patched];
      return Some(patched);
    }

    /** The count is 0 unless the driver answers the update with an array of its rows. */
    method MarkInflightAsShutdown(yieldsRows: bool) returns (marked: nat)
      modifies this
      ensures rows.Keys == old(rows).Keys
      ensures forall x <- rows ::
                rows[x] == if old(rows)[x].status.Running?
                           then old(rows)[x].(status := Failed, error := Some("process shutdown")) else old(rows)[x]
      ensures rows == Apply(old(rows), MarkShutdown)
      ensures marked == if yieldsRows then |set id | id in old(rows) && old(rows)[id].status.Running?| else 0
    {
      marked := if yieldsRows then |set id | id in rows && rows[id].status.Running?| else 0;
      rows := map id | id in rows :: SweptRow(rows[id]);
    }
  }

  function Replay(rows: Rows, ops: seq<Op>): Rows {
    if ops == [] then rows else Apply(Replay(rows, ops[..|ops| - 1]), ops[|ops| - 1])
  }

  /** A binding value that a row was enqueued with (or once has) survives every later write, whatever
      metadata the handlers return; in particular the lease owner and fence of a closure job. */
  lemma {:induction false} BindingIsPermanent(rows: Rows, ops: seq<Op>, id: nat, key: MetadataKey)
    requires id in rows && !key.Other? && key in rows[id].metadata
    ensures id in Replay(rows, ops)
    ensures key in Replay(rows, ops)[id].metadata
    ensures Replay(rows, ops)[id].metadata[key] == rows[id].metadata[key]
    ensures Replay(rows, ops)[id].jobName == rows[id].jobName
  {
    if ops != [] {
      BindingIsPermanent(rows, ops[..|ops| - 1], id, key);
    }
  }
}
