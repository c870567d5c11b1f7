/** The table of sent messages (store/log-store.js). */
module LogStore {
  import opened Wrappers

  datatype Field =
    | Id | Timestamp | To | Message | ProjectName | Ip | Status | Error | SentAt | Reference | ModemId
    | ClientRef | CallbackUrl

  /** A row, column by column; None is SQL's NULL. A patch names the fields a caller passes. */
  type Row = map<Field, Option<string>>

  type Table = map<nat, Row>

  /** The columns a caller may change after creation. */
  const PATCHABLE: seq<Field> := [Status, Error, SentAt, Reference, ModemId]

  /** What an update means: patchable fields named in the patch take its values, nothing else moves. */
  function Patched(row: Row, patch: map<Field, Option<string>>): Row {
    map f | f in row :: if f in patch && f in PATCHABLE then patch[f] else row[f]
  }

  function Update(t: Table, id: nat, patch: map<Field, Option<string>>): Table {
    if id in t then t[id := Patched(t[id], patch)] else t
  }

  /** The assignments collected from the first `k` patchable fields. */
  function Sets(patch: map<Field, Option<string>>, k: nat): seq<(Field, Option<string>)>
    requires k <= |PATCHABLE|
  {
    if k == 0 then []
    else Sets(patch, k - 1) + (if PATCHABLE[k - 1] in patch then [(PATCHABLE[k - 1], patch[PATCHABLE[k - 1]])] else [])
  }

  /** `SET column = value, ...` on a row. */
  function Assign(row: Row, sets: seq<(Field, Option<string>)>): Row {
    if sets == [] then row
    else
      var before := Assign(row, sets[..|sets| - 1]);
      var (column, value) := sets[|sets| - 1];
      if column in row then before[column := value] else before
  }

  /** The row with the first `k` patchable fields taken from the patch. */
  function PatchedUpTo(row: Row, patch: map<Field, Option<string>>, k: nat): Row
    requires k <= |PATCHABLE|
  {
    map f | f in row :: if f in patch && f in PATCHABLE[..k] then patch[f] else row[f]
  }

  lemma OneMoreField(row: Row, patch: map<Field, Option<string>>, k: nat)
    requires 0 < k <= |PATCHABLE|
    ensures var f, before := PATCHABLE[k - 1], PatchedUpTo(row, patch, k - 1);
            PatchedUpTo(row, patch, k) == if f in patch && f in before then before[f := patch[f]] else before
  {
    hide PATCHABLE;
    assert PATCHABLE[..k] == PATCHABLE[..k - 1] + [PATCHABLE[k - 1]];
  }

  lemma {:induction false} AssignMeans(row: Row, patch: map<Field, Option<string>>, k: nat)
    requires k <= |PATCHABLE|
    ensures Assign(row, Sets(patch, k)) == PatchedUpTo(row, patch, k)
  {
    if k == 0 {
      assert PatchedUpTo(row, patch, 0) == row;
    } else {
      AssignMeans(row, patch, k - 1);
      OneMoreField(row, patch, k);
      hide PatchedUpTo;
      var before, f := Sets(patch, k - 1), PATCHABLE[k - 1];
      if f in patch {
        assert Sets(patch, k) == before + [(f, patch[f])];
        assert (before + [(f, patch[f])])[..|before|] == before;
      } else {
        assert Sets(patch, k) == before + [] == before;
      }
    }
  }

  /** Exactly these columns can be changed, each by a patch that names it. */
  lemma PatchMeans(row: Row, patch: map<Field, Option<string>>, f: Field)
    requires f in row
    ensures f in Patched(row, patch)
    ensures Patched(row, patch)[f] ==
            if f in patch && (f == Status || f == Error || f == SentAt || f == Reference || f == ModemId)
            then patch[f] else row[f]
  {
  }

  class LogStore {
    var rows: Table

    constructor ()
      ensures rows == map[]
    {
      rows := map[];
    }

    /** `appendLog`: an insert, which fails on a primary key already there. */
    method AppendLog(id: nat, row: Row) returns (ok: bool)
      modifies this
      ensures ok <==> id !in old(rows)
      ensures rows == if ok then old(rows)[id := row] else old(rows)
    {
      if id in rows {
        return false;
      }
      rows := rows[id := row];
      return true;
    }

    /**
      `updateLog`: the row as it is afterwards, or None for an unknown id. It throws if the UPDATE
      fails, and also if the row cannot be read back, with the UPDATE committed.
     */
    method UpdateLog(id: nat, patch: map<Field, Option<string>>, db: Db) returns (thrown: bool, entry: Option<Row>)
      modifies this
      ensures rows == if db == WriteFails then old(rows) else Update(old(rows), id, patch)
      ensures var writes := exists f :: f in PATCHABLE && f in patch;
              thrown <==> (db == WriteFails && writes) || (db == ReadBackFails && (id in old(rows) || !writes))
      ensures !thrown ==> entry == if id in old(rows) then Some(Patched(old(rows)[id], patch)) else None
    {
      var sets: seq<(Field, Option<string>)> := [];
      for k := 0 to |PATCHABLE|
        invariant sets == Sets(patch, k)
        invariant sets == [] <==> forall i :: 0 <= i < k ==> PATCHABLE[i] !in patch
      {
        var field := PATCHABLE[k];
        if field in patch {
          sets := sets + [(field, patch[field])];
        }
      }
      if id in rows {
        AssignMeans(rows[id], patch, |PATCHABLE|);
        assert PATCHABLE[..|PATCHABLE|] == PATCHABLE;
      }
      if sets == [] {
        assert id in rows ==> Assign(rows[id], sets) == rows[id] && rows == rows[id := rows[id]];
        return db == ReadBackFails, if id in rows then Some(rows[id]) else None;
      }
      if db == WriteFails {
        return true, None;
      }
      if id !in rows {
        return false, None;
      }
      rows := rows[id := Assign(rows[id], sets)];
      if db == ReadBackFails {
        return true, None;
      }
      return false, Some(rows[id]);
    }
  }
}
