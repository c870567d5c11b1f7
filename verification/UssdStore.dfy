/** The table of USSD requests (store/ussd-store.js). Rows stand in insertion order, as SQLite's rowid does. */
module UssdStore {
  import opened Wrappers

  datatype Status = Pending | Done | Failed

  datatype Request = Request(
    id: nat, modemId: string, kind: string, code: string, status: Status,
    reply: Option<string>, error: Option<string>, requestedAt: int, completedAt: Option<int>)

  predicate UniqueIds(rows: seq<Request>) {
    forall i, j :: 0 <= i < j < |rows| ==> rows[i].id != rows[j].id
  }

  /** Position of the request, or the length if there is none. */
  function Find(rows: seq<Request>, id: nat): (k: nat)
    ensures k <= |rows|
    ensures k < |rows| ==> rows[k].id == id
    ensures forall i :: 0 <= i < k ==> rows[i].id != id
  {
    if rows == [] || rows[0].id == id then 0 else 1 + Find(rows[1..], id)
  }

  /** The settled form of a row. */
  function Settled(r: Request, status: Status, reply: Option<string>, error: Option<string>, now: int): Request {
    r.(status := status, reply := reply, error := error, completedAt := Some(now))
  }

  /** `UPDATE ... WHERE id = @id`: no condition on the status that was there. */
  function Complete(rows: seq<Request>, id: nat, status: Status, reply: Option<string>, error: Option<string>, now: int)
    : seq<Request>
  {
    var k := Find(rows, id);
    if k == |rows| then rows else rows[k := Settled(rows[k], status, reply, error, now)]
  }

  /** A settling write, which may fail. */
  function TryComplete(
    rows: seq<Request>, id: nat, status: Status, reply: Option<string>, error: Option<string>, now: int, db: Db)
    : seq<Request>
  {
    if db == WriteFails then rows else Complete(rows, id, status, reply, error, now)
  }

  // ----- latestDone ------------------------------------------------------------------------------

  predicate Matches(r: Request, modemId: string, kind: string) {
    r.modemId == modemId && r.kind == kind && r.status == Done
  }

  /** `ORDER BY requested_at DESC, rowid DESC LIMIT 1` over the first `n` rows: a position, or None. */
  function LatestAmong(rows: seq<Request>, modemId: string, kind: string, n: nat): Option<nat>
    requires n <= |rows|
  {
    if n == 0 then None
    else
      var best := LatestAmong(rows, modemId, kind, n - 1);
      if !Matches(rows[n - 1], modemId, kind) then best
      else if best.Some? && best.value < |rows| && rows[best.value].requestedAt > rows[n - 1].requestedAt then best
      else Some(n - 1)
  }

  function LatestDone(rows: seq<Request>, modemId: string, kind: string): Option<nat> {
    LatestAmong(rows, modemId, kind, |rows|)
  }

  /** `a` precedes `b` in the ordering of the query: requested later, or in the same instant and inserted later. */
  predicate Newer(rows: seq<Request>, a: nat, b: nat)
    requires a < |rows| && b < |rows|
  {
    rows[a].requestedAt > rows[b].requestedAt || (rows[a].requestedAt == rows[b].requestedAt && a > b)
  }

  lemma {:induction false} LatestAmongIsNewest(rows: seq<Request>, modemId: string, kind: string, n: nat)
    requires n <= |rows|
    ensures match LatestAmong(rows, modemId, kind, n)
            case None => forall i :: 0 <= i < n ==> !Matches(rows[i], modemId, kind)
            case Some(k) =>
              && k < n && Matches(rows[k], modemId, kind)
              && forall i :: 0 <= i < n && i != k && Matches(rows[i], modemId, kind) ==> Newer(rows, k, i)
  {
    if n > 0 {
      LatestAmongIsNewest(rows, modemId, kind, n - 1);
    }
  }

  /** The reply served as the stored value is the newest-requested successful one, if there is any. */
  lemma LatestDoneIsNewest(rows: seq<Request>, modemId: string, kind: string)
    ensures match LatestDone(rows, modemId, kind)
            case None =>
              forall i :: 0 <= i < |rows| ==>
                rows[i].modemId != modemId || rows[i].kind != kind || rows[i].status != Done
            case Some(k) =>
              && k < |rows| && rows[k].modemId == modemId && rows[k].kind == kind && rows[k].status == Done
              && forall i :: 0 <= i < |rows| && i != k &&
                             rows[i].modemId == modemId && rows[i].kind == kind && rows[i].status == Done ==>
                   rows[k].requestedAt > rows[i].requestedAt ||
                   (rows[k].requestedAt == rows[i].requestedAt && k > i)
  {
    LatestAmongIsNewest(rows, modemId, kind, |rows|);
  }

  // ----- The store -------------------------------------------------------------------------------

  class UssdStore {
    var rows: seq<Request>

    constructor ()
      ensures rows == []
    {
      rows := [];
    }

    /** `createRequest`: fails on an id already there. */
    method CreateRequest(r: Request) returns (ok: bool)
      modifies this
      ensures ok <==> Find(old(rows), r.id) == |old(rows)|
      ensures rows == if ok then old(rows) + [r] else old(rows)
    {
      ok := Find(rows, r.id) == |rows|;
      if ok {
        rows := rows + [r];
      }
    }

    /**
      `completeRequest`: the settled row, or None for an unknown id. It throws if the UPDATE fails,
      and also if the row cannot be read back, with the UPDATE committed.
     */
    method CompleteRequest(id: nat, status: Status, reply: Option<string>, error: Option<string>, now: int, db: Db)
      returns (thrown: bool, entry: Option<Request>)
      modifies this
      ensures rows == TryComplete(old(rows), id, status, reply, error, now, db)
      ensures thrown <==> db == WriteFails || (db == ReadBackFails && Find(old(rows), id) < |old(rows)|)
      ensures !thrown ==> (entry.Some? <==> Find(old(rows), id) < |old(rows)|)
      ensures !thrown && entry.Some? ==>
                entry.value == Settled(old(rows)[Find(old(rows), id)], status, reply, error, now)
    {
      if db == WriteFails {
        return true, None;
      }
      var k := Find(rows, id);
      if k == |rows| {
        return false, None;
      }
      rows := rows[k := Settled(rows[k], status, reply, error, now)];
      if db == ReadBackFails {
        return true, None;
      }
      return false, Some(rows[k]);
    }
  }
}
