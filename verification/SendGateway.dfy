/**
  What the handlers of a send do to the table and to the callback queue (router/router.js `/send`,
  the worker and its `failed` handler in config/bull.config.js, `enqueueWebhook` in
  config/webhook.config.js), and the throttle of the balance check.
 */
module SendGateway {
  import opened Wrappers
  import opened LogStore

  datatype Callback = Callback(logId: nat, status: Option<string>, url: string)

  /** Configuration of the callbacks; the allowlist test itself is not part of this model. */
  datatype Config = Config(defaultUrl: string, sendIntermediate: bool, allowed: set<string>)

  datatype Gateway = Gateway(rows: Table, callbacks: seq<Callback>)

  /** Why an attempt failed. Only an error thrown by the modem itself carries the modem's id. */
  datatype Failure = Unrecoverable(message: string) | Retryable(message: string, modemId: Option<string>)

  const ATTEMPTS: nat := 3

  // ----- Callbacks -------------------------------------------------------------------------------

  predicate IsTerminal(status: Option<string>) {
    status == Some("sent") || status == Some("failed") || status == Some("unconfirmed")
  }

  function FieldOf(row: Row, f: Field): Option<string> {
    if f in row then row[f] else None
  }

  /** `entry.callbackUrl || DEFAULT_URL`. */
  function CallbackTarget(row: Row, cfg: Config): string {
    var own := FieldOf(row, CallbackUrl);
    if own.Some? && own.value != "" then own.value else cfg.defaultUrl
  }

  predicate ShouldCall(row: Row, cfg: Config) {
    && (IsTerminal(FieldOf(row, Status)) || (FieldOf(row, Status) == Some("retrying") && cfg.sendIntermediate))
    && CallbackTarget(row, cfg) != "" && CallbackTarget(row, cfg) in cfg.allowed
  }

  /** `enqueueWebhook`: never throws; nothing is enqueued without an entry or if the queue fails. */
  function Notify(g: Gateway, id: nat, entry: Option<Row>, cfg: Config, queueOk: bool): Gateway {
    if entry.Some? && queueOk && ShouldCall(entry.value, cfg)
    then g.(callbacks := g.callbacks + [Callback(id, FieldOf(entry.value, Status), CallbackTarget(entry.value, cfg))])
    else g
  }

  // ----- The handlers ----------------------------------------------------------------------------

  /**
    `updateLog` followed by `enqueueWebhook`. An exception skips the callback, also when it comes
    from reading back a row that has been updated.
   */
  function UpdateAndNotify(
    g: Gateway, id: nat, patch: map<Field, Option<string>>, cfg: Config, db: Db, queueOk: bool): Gateway
  {
    if db == WriteFails then g
    else
      var updated := g.(rows := Update(g.rows, id, patch));
      if db == ReadBackFails || id !in g.rows then updated
      else Notify(updated, id, Some(Patched(g.rows[id], patch)), cfg, queueOk)
  }

  function SentPatch(now: string, reference: Option<string>, modemId: string): map<Field, Option<string>> {
    map[Status := Some("sent"), SentAt := Some(now), Reference := reference, ModemId := Some(modemId), Error := None]
  }

  predicate IsFinal(err: Failure, attemptsMade: nat) {
    err.Unrecoverable? || attemptsMade >= ATTEMPTS
  }

  function FailurePatch(err: Failure, attemptsMade: nat): map<Field, Option<string>> {
    var status :=
      if err.Unrecoverable? then "unconfirmed" else if IsFinal(err, attemptsMade) then "failed" else "retrying";
    var patch := map[Status := Some(status), Error := Some(err.message)];
    if err.Retryable? && err.modemId.Some? && err.modemId.value != "" then patch[ModemId := err.modemId] else patch
  }

  /** The entry `/send` creates; a pinned modem is known up front. */
  function NewRow(
    id: string, timestamp: string, to: string, message: string, projectName: Option<string>, ip: Option<string>,
    pinned: Option<string>, clientRef: Option<string>, callbackUrl: Option<string>): Row
  {
    map[Id := Some(id), Timestamp := Some(timestamp), To := Some(to), Message := Some(message),
        ProjectName := projectName, Ip := ip, Status := Some("pending"), Error := None, SentAt := None,
        Reference := None, ModemId := pinned, ClientRef := clientRef, CallbackUrl := callbackUrl]
  }

  function RouteFailedPatch(message: string): map<Field, Option<string>> {
    map[Status := Some("failed"), Error := Some(message)]
  }

  /** The `/send` route; the job is queued if both the insert and the queue succeed. */
  function Route(g: Gateway, id: nat, row: Row, insertOk: bool, addOk: bool, cfg: Config, db: Db, queueOk: bool,
                 message: string): Gateway
    requires id !in g.rows
  {
    var inserted := if insertOk then g.(rows := g.rows[id := row]) else g;
    if insertOk && addOk then inserted
    else UpdateAndNotify(inserted, id, RouteFailedPatch(message), cfg, db, queueOk)
  }

  lemma StatusIsPatched(patch: map<Field, Option<string>>)
    requires Status in patch
    ensures exists f :: f in PATCHABLE && f in patch
  {
    assert Status in PATCHABLE;
  }

  // ----- The balance check -----------------------------------------------------------------------

  const BALANCE_CHECK_MIN_INTERVAL_MS: nat := 600000

  /** `maybeCheckBalance` as a class holding the timestamps, with the checks it has enqueued. */
  class BalanceThrottle {
    var lastBalanceCheckAt: map<string, nat>
    var enqueued: seq<(string, nat)>

    /** Checks of one modem are at least the interval apart, and the map has the latest of each. */
    ghost predicate Valid()
      reads this
    {
      && (forall i, j :: 0 <= i < j < |enqueued| && enqueued[i].0 == enqueued[j].0 ==>
            enqueued[j].1 >= enqueued[i].1 + 600000)
      && (forall i :: 0 <= i < |enqueued| ==>
            enqueued[i].0 in lastBalanceCheckAt && enqueued[i].1 <= lastBalanceCheckAt[enqueued[i].0])
    }

    constructor ()
      ensures Valid() && enqueued == []
    {
      lastBalanceCheckAt, enqueued := map[], [];
    }

    /**
      A check is enqueued exactly if the modem exists, can run USSD, and its last check is long
      enough ago; a check that fails to be enqueued still counts as the last one.
     */
    method MaybeCheckBalance(modemId: Option<string>, known: bool, supportsUssd: bool, now: nat, queueOk: bool)
      requires Valid()
      modifies this
      ensures Valid()
      ensures var before := old(lastBalanceCheckAt);
              var due := modemId.Some? && known && supportsUssd &&
                         now >= 600000 + (if modemId.value in before then before[modemId.value] else 0);
              && enqueued == (if due && queueOk then old(enqueued) + [(modemId.value, now)] else old(enqueued))
              && lastBalanceCheckAt == if due then before[modemId.value := now] else before
    {
      if modemId.None? || !known || !supportsUssd {
        return;
      }
      var last := if modemId.value in lastBalanceCheckAt then lastBalanceCheckAt[modemId.value] else 0;
      if now < last + BALANCE_CHECK_MIN_INTERVAL_MS {
        return;
      }
      lastBalanceCheckAt := lastBalanceCheckAt[modemId.value := now];
      if queueOk {
        enqueued := enqueued + [(modemId.value, now)];
      }
    }
  }

  // ----- The handlers as code --------------------------------------------------------------------

  class Handlers {
    const store: LogStore
    var callbacks: seq<Callback>

    function State(): Gateway
      reads this, store
    {
      Gateway(store.rows, callbacks)
    }

    constructor ()
      ensures fresh(store) && State() == Gateway(map[], [])
    {
      store := new LogStore();
      callbacks := [];
    }

    method EnqueueWebhook(id: nat, entry: Option<Row>, cfg: Config, queueOk: bool)
      modifies this
      ensures State() == Notify(old(State()), id, entry, cfg, queueOk)
    {
      if entry.None? {
        return;
      }
      var status := FieldOf(entry.value, Status);
      if !IsTerminal(status) && !(status == Some("retrying") && cfg.sendIntermediate) {
        return;
      }
      var url := CallbackTarget(entry.value, cfg);
      if url == "" || url !in cfg.allowed {
        return;
      }
      if queueOk {
        callbacks := callbacks + [Callback(id, status, url)];
      }
    }

    /** The worker once `modem.sendSMS` has resolved: an error in here must not fail the job. */
    method AfterSend(id: nat, now: string, reference: Option<string>, modemId: string, cfg: Config,
                     db: Db, queueOk: bool)
      modifies this, store
      ensures State() == UpdateAndNotify(old(State()), id, SentPatch(now, reference, modemId), cfg, db, queueOk)
    {
      var thrown, entry := store.UpdateLog(id, SentPatch(now, reference, modemId), db);
      StatusIsPatched(SentPatch(now, reference, modemId));
      if !thrown {
        EnqueueWebhook(id, entry, cfg, queueOk);
      }
    }

    /** The `failed` handler. */
    method OnFailed(id: nat, err: Failure, attemptsMade: nat, cfg: Config, db: Db, queueOk: bool)
      modifies this, store
      ensures State() == UpdateAndNotify(old(State()), id, FailurePatch(err, attemptsMade), cfg, db, queueOk)
    {
      var unconfirmed := err.Unrecoverable?;
      var isFinal := unconfirmed || attemptsMade >= ATTEMPTS;
      var status := if unconfirmed then "unconfirmed" else if isFinal then "failed" else "retrying";
      var patch := map[Status := Some(status), Error := Some(err.message)];
      if err.Retryable? && err.modemId.Some? && err.modemId.value != "" {
        patch := patch[ModemId := err.modemId];
      }
      var thrown, entry := store.UpdateLog(id, patch, db);
      StatusIsPatched(patch);
      if !thrown {
        EnqueueWebhook(id, entry, cfg, queueOk);
      }
    }

    /** The `/send` route; `accepted` is the 202 answer. */
    method Send(id: nat, row: Row, insertOk: bool, addOk: bool, cfg: Config, db: Db, queueOk: bool, message: string)
      returns (accepted: bool)
      requires id !in store.rows
      modifies this, store
      ensures State() == Route(old(State()), id, row, insertOk, addOk, cfg, db, queueOk, message)
      ensures accepted <==> insertOk && addOk
    {
      if insertOk {
        var inserted := store.AppendLog(id, row);
        if addOk {
          return true;
        }
      }
      var thrown, failed := store.UpdateLog(id, RouteFailedPatch(message), db);
      StatusIsPatched(RouteFailedPatch(message));
      if !thrown && failed.Some? {
        EnqueueWebhook(id, failed, cfg, queueOk);
      }
      return false;
    }
  }
}
