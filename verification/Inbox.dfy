/**
  The inbox: storing what a modem's storage holds (store/inbox-store.js, utils/inbox-sync.js)
  before it is deleted there, for a device that receives messages all the while. The drivers come
  in as the protocol their traces follow; that they do is proved beside them.
 */
module Inbox {
  import opened Wrappers
  import opened Utf16

  /** The text of a message: characters off a serial line, or decoded UTF-16 code units. */
  datatype Body = Chars(s: string) | Units(t: Text)

  /** A message as a driver hands it over; a field the device left out is None. */
  datatype Inbound = Inbound(from: Option<string>, date: Option<string>, text: Option<Body>, modemId: Option<string>)

  datatype Row = Row(
    from: Option<string>, date: Option<string>, text: Body, receivedAt: string, modemId: Option<string>)

  function RowOf(m: Inbound, receivedAt: string): Row {
    Row(m.from, m.date, if m.text.Some? then m.text.value else Chars(""), receivedAt, m.modemId)
  }

  function RowsOf(messages: seq<Inbound>, receivedAt: string): seq<Row> {
    seq(|messages|, i requires 0 <= i < |messages| => RowOf(messages[i], receivedAt))
  }

  class InboxStore {
    var rows: seq<Row>

    constructor ()
      ensures rows == []
    {
      rows := [];
    }

    /**
      `saveReceived`: one transaction. `failAt` is the insert that throws, if one does; the rows
      inserted before it are rolled back.
     */
    method SaveReceived(messages: seq<Inbound>, receivedAt: string, failAt: Option<nat>) returns (ok: bool)
      modifies this
      ensures ok <==> failAt.None? || failAt.value >= |messages|
      ensures rows == if ok then old(rows) + RowsOf(messages, receivedAt) else old(rows)
      ensures ok ==> |rows| == |old(rows)| + |messages| && forall i :: 0 <= i < |messages| ==>
                var m, row := messages[i], rows[|old(rows)| + i];
                && row.from == m.from && row.date == m.date && row.receivedAt == receivedAt && row.modemId == m.modemId
                && row.text == if m.text.Some? then m.text.value else Chars("")
    {
      var before := rows;
      var i := 0;
      while i < |messages|
        invariant i <= |messages| && before == old(rows)
        invariant rows == before + RowsOf(messages[..i], receivedAt)
        invariant failAt.Some? ==> i <= failAt.value
      {
        if failAt == Some(i) {
          rows := before;
          return false;
        }
        rows := rows + [RowOf(messages[i], receivedAt)];
        assert RowsOf(messages[..i + 1], receivedAt) ==
               RowsOf(messages[..i], receivedAt) + [RowOf(messages[i], receivedAt)];
        i := i + 1;
      }
      assert messages[..i] == messages;
      return true;
    }
  }

  // ----- A device and its passes -----------------------------------------------------------------

  /** What a listing tells about a stored message. */
  datatype Content = Content(from: string, date: string, text: Body)

  datatype Item = Item(slot: nat, content: Content)

  /** A message that reached the device; `uid` tells two equal messages apart and is seen by nobody. */
  datatype Sms = Sms(uid: nat, content: Content)

  function InboundOf(c: Content, modemId: string): Inbound {
    Inbound(Some(c.from), Some(c.date), Some(c.text), Some(modemId))
  }

  function InboundsOf(items: seq<Item>, modemId: string): seq<Inbound> {
    seq(|items|, i requires 0 <= i < |items| => InboundOf(items[i].content, modemId))
  }

  function SlotsOf(items: seq<Item>): set<nat> {
    set i | 0 <= i < |items| :: items[i].slot
  }

  /** A listing shows each slot once. */
  predicate DistinctSlots(items: seq<Item>) {
    forall i, j :: 0 <= i < j < |items| ==> items[i].slot != items[j].slot
  }

  /** `items` says what is in the slots it names. */
  predicate Shows(items: seq<Item>, slots: map<nat, Sms>) {
    forall i :: 0 <= i < |items| ==> items[i].slot in slots && slots[items[i].slot].content == items[i].content
  }

  /** One `getMessages` under way: what it read, and what of it is still to be deleted. */
  datatype Pass = Idle | Reading(read: map<nat, Sms>) | Deleting(read: map<nat, Sms>, left: set<nat>)

  /** A serial deletion that fails ends the pass; the ZTE driver may log in again and repeat it. */
  datatype Kind = Serial | Zte

  /** `origins` has the uid behind each row; the program does not keep it. */
  datatype Site = Site(
    kind: Kind, modemId: string, slots: map<nat, Sms>, arrived: set<Sms>, rows: seq<Row>, origins: seq<nat>,
    pass: Pass)

  datatype Event =
    | Arrive(slot: nat, sms: Sms)
    | List(items: seq<Item>)  // a pass begins, and the one before it is over
    | Persist(items: seq<Item>, receivedAt: string)
    | PersistThrows
    | Delete(targets: set<nat>, applied: set<nat>, acked: bool)  // unacknowledged: applied in part or not at all
    | EndPass

  predicate Enabled(s: Site, e: Event) {
    match e
    case Arrive(slot, sms) => slot !in s.slots && forall m :: m in s.arrived ==> m.uid != sms.uid
    case List(items) => DistinctSlots(items) && Shows(items, s.slots)
    case Persist(items, _) => s.pass.Reading? && Shows(items, s.pass.read) && SlotsOf(items) == s.pass.read.Keys
    case PersistThrows => s.pass.Reading?
    case Delete(targets, applied, acked) =>
      && s.pass.Deleting? && targets <= s.pass.left && applied <= targets && (acked ==> applied == targets)
    case EndPass => true
  }

  function Apply(s: Site, e: Event): Site
    requires Enabled(s, e)
  {
    match e
    case Arrive(slot, sms) => s.(slots := s.slots[slot := sms], arrived := s.arrived + {sms})
    case List(items) => s.(pass := Reading(map k | k in s.slots && k in SlotsOf(items) :: s.slots[k]))
    case Persist(items, receivedAt) =>
      s.(rows := s.rows + RowsOf(InboundsOf(items, s.modemId), receivedAt),
         origins := s.origins + seq(|items|, i requires 0 <= i < |items| => s.pass.read[items[i].slot].uid),
         pass := Deleting(s.pass.read, s.pass.read.Keys))
    case PersistThrows => s.(pass := Idle)
    case Delete(targets, applied, acked) =>
      var gone := s.(slots := s.slots - applied);
      if acked then gone.(pass := Deleting(s.pass.read, s.pass.left - targets))
      else if s.kind == Serial then gone.(pass := Idle)
      else gone
    case EndPass => s.(pass := Idle)
  }

  function Run(s: Site, events: seq<Event>): Site
    decreases |events|
  {
    if events == [] then s
    else Run(if Enabled(s, events[0]) then Apply(s, events[0]) else s, events[1..])
  }

  function Initial(kind: Kind, modemId: string): Site {
    Site(kind, modemId, map[], {}, [], [], Idle)
  }

  /** Row `i` was made from this message. */
  predicate IsRowOf(s: Site, i: nat, m: Sms)
    requires |s.origins| == |s.rows|
  {
    && i < |s.rows| && s.origins[i] == m.uid
    && s.rows[i] == RowOf(InboundOf(m.content, s.modemId), s.rows[i].receivedAt)
  }

  predicate HasRow(s: Site, m: Sms) {
    |s.origins| == |s.rows| && exists i :: 0 <= i < |s.rows| && IsRowOf(s, i, m)
  }

  /** The row of a message has its sender, its date and its text, and the modem it came to. */
  lemma RowSaysTheMessage(s: Site, i: nat, m: Sms)
    requires |s.origins| == |s.rows| && IsRowOf(s, i, m)
    ensures var row := s.rows[i];
            && row.from == Some(m.content.from) && row.date == Some(m.content.date) && row.text == m.content.text
            && row.modemId == Some(s.modemId)
  {
  }

  /** A message that reached the device and is neither on it nor in the table. */
  predicate Lost(s: Site, m: Sms) {
    m in s.arrived && m !in s.slots.Values && !HasRow(s, m)
  }

  predicate Conserved(s: Site) {
    forall m :: m in s.arrived ==> !Lost(s, m)
  }

  /** The slot is named by a deletion under way. */
  predicate IsNamed(s: Site, slot: nat) {
    s.pass.Deleting? && slot in s.pass.left
  }

  /** In the table, or on the device where no deletion under way can reach it. */
  predicate Safe(s: Site, m: Sms) {
    HasRow(s, m) || exists k :: k in s.slots && s.slots[k] == m && !IsNamed(s, k)
  }

  predicate UidArrived(arrived: set<Sms>, uid: nat) {
    exists m :: m in arrived && m.uid == uid
  }

  /** Rows come from messages that arrived. */
  predicate OriginsArrived(s: Site) {
    forall i :: 0 <= i < |s.origins| ==> UidArrived(s.arrived, s.origins[i])
  }

  /**
    A pass that deletes has stored everything it read. Its targets still hold what it read, or,
    on a ZTE stick, a message that came after it and has no row.
   */
  predicate Inv(s: Site) {
    && |s.origins| == |s.rows| && OriginsArrived(s)
    && (forall m, n :: m in s.arrived && n in s.arrived && m.uid == n.uid ==> m == n)
    && s.slots.Values <= s.arrived
    && (forall j, k :: j in s.slots && k in s.slots && s.slots[j] == s.slots[k] ==> j == k)
    && match s.pass
       case Idle => true
       case Reading(read) =>
         && read.Keys <= s.slots.Keys
         && forall k :: k in read ==> read[k] == s.slots[k]
       case Deleting(read, left) =>
         && left <= read.Keys
         && (s.kind == Serial ==> left <= s.slots.Keys && forall k :: k in left ==> s.slots[k] == read[k])
         && (forall k :: k in left && k in s.slots ==> s.slots[k] == read[k] || !HasRow(s, s.slots[k]))
         && forall k :: k in read ==> HasRow(s, read[k])
  }

  lemma RowsOnlyGrow(s: Site, t: Site, m: Sms)
    requires HasRow(s, m) && t.modemId == s.modemId && s.rows <= t.rows && s.origins <= t.origins
    requires |t.origins| == |t.rows|
    ensures HasRow(t, m)
  {
    var i :| 0 <= i < |s.rows| && IsRowOf(s, i, m);
    assert IsRowOf(t, i, m);
  }

  lemma PersistStoresAll(s: Site, items: seq<Item>, receivedAt: string)
    requires |s.origins| == |s.rows| && Enabled(s, Persist(items, receivedAt))
    ensures forall k :: k in s.pass.read ==> HasRow(Apply(s, Persist(items, receivedAt)), s.pass.read[k])
  {
    var t := Apply(s, Persist(items, receivedAt));
    forall k | k in s.pass.read
      ensures HasRow(t, s.pass.read[k])
    {
      assert k in SlotsOf(items);
      var i :| 0 <= i < |items| && items[i].slot == k;
      assert IsRowOf(t, |s.rows| + i, s.pass.read[k]);
    }
  }

  lemma PersistKeepsInv(s: Site, items: seq<Item>, receivedAt: string)
    requires Inv(s) && Enabled(s, Persist(items, receivedAt))
    ensures Inv(Apply(s, Persist(items, receivedAt)))
  {
    hide HasRow, SlotsOf, OriginsArrived;
    PersistStoresAll(s, items, receivedAt);
    PersistedArrived(s, items, receivedAt);
  }

  lemma PersistedArrived(s: Site, items: seq<Item>, receivedAt: string)
    requires Inv(s) && Enabled(s, Persist(items, receivedAt))
    ensures OriginsArrived(Apply(s, Persist(items, receivedAt)))
  {
    hide HasRow, SlotsOf;
    var t := Apply(s, Persist(items, receivedAt));
    forall i | 0 <= i < |t.origins|
      ensures UidArrived(t.arrived, t.origins[i])
    {
      if i < |s.origins| {
        assert UidArrived(s.arrived, s.origins[i]);
      } else {
        var slot := items[i - |s.origins|].slot;
        assert slot in s.pass.read && s.slots[slot] in s.slots.Values;
        assert s.slots[slot] in t.arrived && s.slots[slot].uid == t.origins[i];
      }
    }
  }

  /** A row that is there after the same rows is there before. */
  lemma SameRows(s: Site, t: Site, m: Sms)
    requires t.modemId == s.modemId && t.rows == s.rows && t.origins == s.origins
    ensures HasRow(t, m) <==> HasRow(s, m)
  {
    if HasRow(t, m) {
      RowsOnlyGrow(t, s, m);
    }
    if HasRow(s, m) {
      RowsOnlyGrow(s, t, m);
    }
  }

  lemma OriginsKept(s: Site, t: Site)
    requires OriginsArrived(s) && t.origins == s.origins && s.arrived <= t.arrived
    ensures OriginsArrived(t)
  {
    forall i | 0 <= i < |t.origins|
      ensures UidArrived(t.arrived, t.origins[i])
    {
      assert UidArrived(s.arrived, s.origins[i]);
    }
  }

  lemma DeleteKeepsInv(s: Site, targets: set<nat>, applied: set<nat>, acked: bool)
    requires Inv(s) && Enabled(s, Delete(targets, applied, acked))
    ensures Inv(Apply(s, Delete(targets, applied, acked)))
  {
    hide HasRow, OriginsArrived;
    var t := Apply(s, Delete(targets, applied, acked));
    OriginsKept(s, t);
    forall m
      ensures HasRow(t, m) <==> HasRow(s, m)
    {
      SameRows(s, t, m);
    }
    forall k | k in t.slots
      ensures t.slots[k] in t.arrived
    {
      assert s.slots[k] in s.slots.Values;
    }
  }

  /** What has not arrived has no row. */
  lemma NoRowYet(s: Site, m: Sms)
    requires |s.origins| == |s.rows| && OriginsArrived(s) && forall n :: n in s.arrived ==> n.uid != m.uid
    ensures !HasRow(s, m)
  {
  }

  lemma ArriveKeepsInv(s: Site, slot: nat, sms: Sms)
    requires Inv(s) && Enabled(s, Arrive(slot, sms))
    ensures Inv(Apply(s, Arrive(slot, sms)))
  {
    hide HasRow, OriginsArrived;
    var t := Apply(s, Arrive(slot, sms));
    OriginsKept(s, t);
    forall m
      ensures HasRow(t, m) <==> HasRow(s, m)
    {
      SameRows(s, t, m);
    }
    NoRowYet(s, sms);
    forall k | k in t.slots
      ensures t.slots[k] in t.arrived && (k != slot ==> t.slots[k] != sms)
    {
      assert k != slot ==> s.slots[k] in s.slots.Values;
    }
  }

  lemma StepKeepsInv(s: Site, e: Event)
    requires Inv(s) && Enabled(s, e)
    ensures Inv(Apply(s, e))
  {
    hide HasRow, SlotsOf, OriginsArrived;
    match e
    case Arrive(slot, sms) => ArriveKeepsInv(s, slot, sms);
    case Persist(items, receivedAt) => PersistKeepsInv(s, items, receivedAt);
    case Delete(targets, applied, acked) => DeleteKeepsInv(s, targets, applied, acked);
    case _ => OriginsKept(s, Apply(s, e));
  }

  lemma {:induction false} RunsKeepInv(s: Site, events: seq<Event>)
    requires Inv(s)
    ensures Inv(Run(s, events)) && Run(s, events).kind == s.kind
    decreases |events|
  {
    hide Inv, Enabled;
    if events != [] {
      if Enabled(s, events[0]) {
        StepKeepsInv(s, events[0]);
        RunsKeepInv(Apply(s, events[0]), events[1..]);
      } else {
        RunsKeepInv(s, events[1..]);
      }
    }
  }

  lemma InitiallyInv(kind: Kind, modemId: string)
    ensures Inv(Initial(kind, modemId)) && Agrees(NoPass, Initial(kind, modemId).pass)
  {
  }

  lemma Reachable(kind: Kind, modemId: string, events: seq<Event>)
    ensures Inv(Run(Initial(kind, modemId), events)) && Run(Initial(kind, modemId), events).kind == kind
  {
    hide Run, HasRow;
    InitiallyInv(kind, modemId);
    RunsKeepInv(Initial(kind, modemId), events);
  }

  // ----- Which messages can be lost --------------------------------------------------------------

  lemma RowIsKept(s: Site, e: Event, m: Sms)
    requires |s.origins| == |s.rows| && Enabled(s, e) && HasRow(s, m)
    ensures HasRow(Apply(s, e), m)
  {
    RowsOnlyGrow(s, Apply(s, e), m);
  }

  /** A safe message stays safe, whatever happens. */
  lemma StepKeepsSafe(s: Site, e: Event, m: Sms)
    requires Inv(s) && Enabled(s, e) && Safe(s, m)
    ensures Safe(Apply(s, e), m)
  {
    hide HasRow, SlotsOf;
    var t := Apply(s, e);
    if HasRow(s, m) {
      RowIsKept(s, e, m);
    } else {
      var k :| k in s.slots && s.slots[k] == m && !IsNamed(s, k);
      assert k in t.slots && t.slots[k] == m;
      if e.Persist? {
        PersistStoresAll(s, e.items, e.receivedAt);
        assert k in s.pass.read ==> HasRow(t, m);
      }
    }
  }

  lemma {:induction false} RunsKeepSafe(s: Site, events: seq<Event>, m: Sms)
    requires Inv(s) && Safe(s, m)
    ensures Safe(Run(s, events), m)
    decreases |events|
  {
    hide Inv, Enabled, Apply, Safe;
    if events != [] {
      if Enabled(s, events[0]) {
        StepKeepsInv(s, events[0]);
        StepKeepsSafe(s, events[0], m);
        RunsKeepSafe(Apply(s, events[0]), events[1..], m);
      } else {
        RunsKeepSafe(s, events[1..], m);
      }
    }
  }

  lemma SafeIsNotLost(s: Site, m: Sms)
    requires Safe(s, m)
    ensures !Lost(s, m)
  {
  }

  /** A message is safe on arrival exactly if its slot is not named. */
  lemma ArrivalIsSafeIffUnnamed(s: Site, slot: nat, sms: Sms)
    requires Inv(s) && Enabled(s, Arrive(slot, sms))
    ensures Safe(Apply(s, Arrive(slot, sms)), sms) <==> !IsNamed(s, slot)
  {
    hide HasRow;
    var t := Apply(s, Arrive(slot, sms));
    NoRowYet(s, sms);
    SameRows(s, t, sms);
    assert t.slots[slot] == sms;
    forall k | k in t.slots && k != slot
      ensures t.slots[k] != sms
    {
      assert s.slots[k] in s.slots.Values;
    }
  }

  /** The deletion under way, repeated in full and accepted, takes what has come under its names. */
  lemma NamedCanBeLost(s: Site, slot: nat, sms: Sms)
    requires Inv(s) && Enabled(s, Arrive(slot, sms)) && IsNamed(s, slot)
    ensures var t := Apply(s, Arrive(slot, sms));
            Lost(Run(t, [Delete(t.pass.left, t.pass.left, true)]), sms)
  {
    hide HasRow;
    var t := Apply(s, Arrive(slot, sms));
    var e := Delete(t.pass.left, t.pass.left, true);
    var u := Apply(t, e);
    assert Run(t, [e]) == u by {
      assert [e][1..] == [];
    }
    NoRowYet(s, sms);
    SameRows(s, u, sms);
    forall k | k in u.slots
      ensures u.slots[k] != sms
    {
      assert k != slot && s.slots[k] in s.slots.Values;
    }
  }

  lemma NamesStay(s: Site, slot: nat, sms: Sms)
    requires Enabled(s, Arrive(slot, sms)) && IsNamed(s, slot)
    ensures Apply(s, Arrive(slot, sms)).pass.Deleting?
  {
  }

  /**
    After any run, a message that arrives can be lost in some continuation if and only if it takes
    a slot that a deletion under way still names.
   */
  lemma ArrivalCanBeLostIffNamed(kind: Kind, modemId: string, events: seq<Event>, slot: nat, sms: Sms)
    requires Enabled(Run(Initial(kind, modemId), events), Arrive(slot, sms))
    ensures var s := Run(Initial(kind, modemId), events);
            (exists more :: Lost(Run(Apply(s, Arrive(slot, sms)), more), sms)) <==> IsNamed(s, slot)
  {
    hide Run, Lost, Safe, IsNamed, HasRow, Inv, Enabled, Apply;
    Reachable(kind, modemId, events);
    var s := Run(Initial(kind, modemId), events);
    var t := Apply(s, Arrive(slot, sms));
    ArrivalIsSafeIffUnnamed(s, slot, sms);
    if IsNamed(s, slot) {
      NamedCanBeLost(s, slot, sms);
      NamesStay(s, slot, sms);
      var more := [Delete(t.pass.left, t.pass.left, true)];
      assert Lost(Run(t, more), sms);
    } else {
      StepKeepsInv(s, Arrive(slot, sms));
      forall more
        ensures !Lost(Run(t, more), sms)
      {
        RunsKeepSafe(t, more, sms);
        SafeIsNotLost(Run(t, more), sms);
      }
    }
  }

  /** Serial deletions name occupied slots only. */
  lemma SerialNamesAreOccupied(s: Site, slot: nat)
    requires Inv(s) && s.kind == Serial && slot !in s.slots
    ensures !IsNamed(s, slot)
  {
  }

  /** In this run the message arrives in a slot that a deletion under way names. */
  predicate Clashed(s: Site, events: seq<Event>, m: Sms)
    decreases |events|
  {
    events != [] &&
    if !Enabled(s, events[0]) then Clashed(s, events[1..], m)
    else
      (events[0].Arrive? && events[0].sms == m && IsNamed(s, events[0].slot)) ||
      Clashed(Apply(s, events[0]), events[1..], m)
  }

  lemma {:induction false} UnsafeOnlyByClash(s: Site, events: seq<Event>, m: Sms)
    requires Inv(s) && (m in s.arrived ==> Safe(s, m))
    ensures m in Run(s, events).arrived && !Safe(Run(s, events), m) ==> Clashed(s, events, m)
    decreases |events|
  {
    hide Inv, Safe, IsNamed, Lost, HasRow, Shows, SlotsOf;
    if events != [] {
      if Enabled(s, events[0]) {
        StepKeepsInv(s, events[0]);
        if m in s.arrived {
          StepKeepsSafe(s, events[0], m);
          UnsafeOnlyByClash(Apply(s, events[0]), events[1..], m);
        } else if events[0].Arrive? && events[0].sms == m && IsNamed(s, events[0].slot) {
        } else {
          if events[0].Arrive? && events[0].sms == m {
            ArrivalIsSafeIffUnnamed(s, events[0].slot, m);
          }
          UnsafeOnlyByClash(Apply(s, events[0]), events[1..], m);
        }
      } else {
        UnsafeOnlyByClash(s, events[1..], m);
      }
    }
  }

  lemma {:induction false} SerialNeverClashes(s: Site, events: seq<Event>, m: Sms)
    requires Inv(s) && s.kind == Serial
    ensures !Clashed(s, events, m)
    decreases |events|
  {
    hide Inv, IsNamed, HasRow, Shows, SlotsOf;
    if events != [] {
      if Enabled(s, events[0]) {
        StepKeepsInv(s, events[0]);
        if events[0].Arrive? {
          SerialNamesAreOccupied(s, events[0].slot);
        }
        SerialNeverClashes(Apply(s, events[0]), events[1..], m);
      } else {
        SerialNeverClashes(s, events[1..], m);
      }
    }
  }

  /**
    Conservation over every run, with arrivals in any free slot at any moment, writes that fail and
    deletions that fail before or after they took effect. A message that is lost arrived in a slot
    that a deletion under way still named. On a serial modem none is: every message that ever
    reached it is on the device or in the table.
   */
  lemma NoMessageIsLost(kind: Kind, modemId: string, events: seq<Event>)
    ensures var site := Initial(kind, modemId);
            && (forall m :: Lost(Run(site, events), m) ==> Clashed(site, events, m))
            && (kind == Serial ==> Conserved(Run(site, events)))
  {
    hide Run, HasRow, Clashed, Safe, Inv;
    InitiallyInv(kind, modemId);
    var site := Initial(kind, modemId);
    forall m | Lost(Run(site, events), m)
      ensures Clashed(site, events, m) && kind != Serial
    {
      UnsafeOnlyByClash(site, events, m);
      if Safe(Run(site, events), m) {
        SafeIsNotLost(Run(site, events), m);
      }
      if kind == Serial {
        SerialNeverClashes(site, events, m);
      }
    }
  }

  /** A deletion that is applied and rejected, an arrival under the freed id, and the deletion again. */
  function ReuseRun(id: nat, c: Content, d: Content, receivedAt: string): seq<Event> {
    [Arrive(id, Sms(0, c)), List([Item(id, c)]), Persist([Item(id, c)], receivedAt), Delete({id}, {id}, false),
     Arrive(id, Sms(1, d)), Delete({id}, {id}, true)]
  }

  /** The run that shows it: on a ZTE stick the second message is lost. */
  lemma ReusedIdIsLost(modemId: string, id: nat, c: Content, d: Content, receivedAt: string)
    ensures var site := Initial(Zte, modemId);
            IsRun(site, ReuseRun(id, c, d, receivedAt)) && Lost(Run(site, ReuseRun(id, c, d, receivedAt)), Sms(1, d))
  {
    hide Run, IsRun, Lost, Inv, Enabled, Apply, Shows;
    var e4, e5 := Arrive(id, Sms(1, d)), Delete({id}, {id}, true);
    var s4 := HalfDeleted(modemId, id, c, receivedAt);
    HalfDeletedIsReached(modemId, id, c, receivedAt, [e4, e5]);
    HalfDeletedInv(modemId, id, c, receivedAt);
    NamedCanBeLost(s4, id, Sms(1, d));
    SecondDeletion(modemId, id, c, d, receivedAt);
    LastTwoSteps(s4, e4, e5);
    assert ReuseRun(id, c, d, receivedAt) ==
           [Arrive(id, Sms(0, c)), List([Item(id, c)]), Persist([Item(id, c)], receivedAt), Delete({id}, {id}, false)] +
           [e4, e5];
  }

  /** The stick after the first deletion: message 0 is gone, and the pass still names its id. */
  function HalfDeleted(modemId: string, id: nat, c: Content, receivedAt: string): Site {
    Site(Zte, modemId, map[], {Sms(0, c)}, [RowOf(InboundOf(c, modemId), receivedAt)], [0],
         Deleting(map[id := Sms(0, c)], {id}))
  }

  lemma HalfDeletedInv(modemId: string, id: nat, c: Content, receivedAt: string)
    ensures Inv(HalfDeleted(modemId, id, c, receivedAt))
    ensures forall d :: Enabled(HalfDeleted(modemId, id, c, receivedAt), Arrive(id, Sms(1, d)))
  {
    var s := HalfDeleted(modemId, id, c, receivedAt);
    assert IsRowOf(s, 0, Sms(0, c));
    assert Sms(0, c) in s.arrived && Sms(0, c).uid == s.origins[0];
  }

  lemma HalfDeletedIsReached(modemId: string, id: nat, c: Content, receivedAt: string, more: seq<Event>)
    ensures var events := [Arrive(id, Sms(0, c)), List([Item(id, c)]), Persist([Item(id, c)], receivedAt),
                           Delete({id}, {id}, false)];
            var site, half := Initial(Zte, modemId), HalfDeleted(modemId, id, c, receivedAt);
            && Run(site, events + more) == Run(half, more)
            && (IsRun(site, events + more) <==> IsRun(half, more))
  {
    hide Run, IsRun, RowOf, InboundOf;
    var items := [Item(id, c)];
    var e0, e1, e2, e3 := Arrive(id, Sms(0, c)), List(items), Persist(items, receivedAt), Delete({id}, {id}, false);
    OneSlot(id, c);
    var s0 := Initial(Zte, modemId);
    var s1 := Apply(s0, e0);
    var s2 := Apply(s1, e1);
    assert s2.pass.read == map[id := Sms(0, c)];
    var s3 := Apply(s2, e2);
    OneRow(items, modemId, receivedAt);
    assert s3.rows == [RowOf(InboundOf(c, modemId), receivedAt)] && s3.origins == [0];
    assert s3.pass == Deleting(map[id := Sms(0, c)], {id}) && s3.slots - {id} == map[];
    var s4 := Apply(s3, e3);
    assert s4 == HalfDeleted(modemId, id, c, receivedAt);
    RunStep(s0, e0, [e1, e2, e3] + more);
    RunStep(s1, e1, [e2, e3] + more);
    RunStep(s2, e2, [e3] + more);
    RunStep(s3, e3, more);
    assert [e0, e1, e2, e3] + more == [e0] + ([e1, e2, e3] + more);
    assert [e1, e2, e3] + more == [e1] + ([e2, e3] + more) && [e2, e3] + more == [e2] + ([e3] + more);
  }

  lemma OneRow(items: seq<Item>, modemId: string, receivedAt: string)
    requires |items| == 1
    ensures RowsOf(InboundsOf(items, modemId), receivedAt) == [RowOf(InboundOf(items[0].content, modemId), receivedAt)]
  {
  }

  lemma SecondDeletion(modemId: string, id: nat, c: Content, d: Content, receivedAt: string)
    ensures var s := HalfDeleted(modemId, id, c, receivedAt);
            && Enabled(s, Arrive(id, Sms(1, d)))
            && var t := Apply(s, Arrive(id, Sms(1, d)));
            t.pass.Deleting? && t.pass.left == {id} && Enabled(t, Delete({id}, {id}, true)) && IsNamed(s, id)
  {
  }

  lemma LastTwoSteps(s: Site, a: Event, b: Event)
    requires Enabled(s, a) && Enabled(Apply(s, a), b)
    ensures IsRun(s, [a, b]) && Run(s, [a, b]) == Run(Apply(s, a), [b])
  {
    hide Run, Enabled, Apply;
    RunStep(s, a, [b]);
    assert [a, b] == [a] + [b] && [b] == [b] + [];
    RunStep(Apply(s, a), b, []);
    NothingToRun(Apply(Apply(s, a), b));
  }

  lemma OneSlot(id: nat, c: Content)
    ensures SlotsOf([Item(id, c)]) == {id}
  {
    assert [Item(id, c)][0].slot == id;
  }

  lemma RunStep(s: Site, e: Event, more: seq<Event>)
    requires Enabled(s, e)
    ensures Run(s, [e] + more) == Run(Apply(s, e), more)
    ensures IsRun(s, [e] + more) <==> IsRun(Apply(s, e), more)
  {
    assert ([e] + more)[1..] == more;
  }

  lemma NothingToRun(s: Site)
    ensures IsRun(s, []) && Run(s, []) == s
  {
  }

  lemma {:induction false} RunInTwo(s: Site, a: seq<Event>, b: seq<Event>)
    ensures Run(s, a + b) == Run(Run(s, a), b)
    ensures IsRun(s, a) && IsRun(Run(s, a), b) ==> IsRun(s, a + b)
    decreases |a|
  {
    hide Enabled, Apply;
    if a == [] {
      assert a + b == b;
    } else {
      assert (a + b)[1..] == a[1..] + b;
      RunInTwo(if Enabled(s, a[0]) then Apply(s, a[0]) else s, a[1..], b);
    }
  }

  /** The end of a pass brings nothing back. */
  lemma EndingKeepsLosses(s: Site, events: seq<Event>, m: Sms)
    requires IsRun(s, events) && Lost(Run(s, events), m)
    ensures IsRun(s, events + [EndPass]) && Lost(Run(s, events + [EndPass]), m)
  {
    hide Run, IsRun, HasRow;
    var t := Run(s, events);
    RunInTwo(s, events, [EndPass]);
    assert [EndPass] == [EndPass] + [];
    RunStep(t, EndPass, []);
    NothingToRun(Apply(t, EndPass));
    SameRows(t, Apply(t, EndPass), m);
  }

  lemma ReuseWithoutArrivals(id: nat, c: Content, d: Content, receivedAt: string)
    ensures WithoutArrivals(ReuseRun(id, c, d, receivedAt) + [EndPass]) ==
            [List([Item(id, c)]), Persist([Item(id, c)], receivedAt), Delete({id}, {id}, false),
             Delete({id}, {id}, true), EndPass]
  {
    hide WithoutArrivals;
    var e0, e1, e2 := Arrive(id, Sms(0, c)), List([Item(id, c)]), Persist([Item(id, c)], receivedAt);
    var e3, e4, e5 := Delete({id}, {id}, false), Arrive(id, Sms(1, d)), Delete({id}, {id}, true);
    DropFirst(e0, [e1, e2, e3, e4, e5, EndPass]);
    DropFirst(e1, [e2, e3, e4, e5, EndPass]);
    DropFirst(e2, [e3, e4, e5, EndPass]);
    DropFirst(e3, [e4, e5, EndPass]);
    DropFirst(e4, [e5, EndPass]);
    DropFirst(e5, [EndPass]);
    DropFirst(EndPass, []);
    NothingToDrop();
    assert ReuseRun(id, c, d, receivedAt) + [EndPass] == [e0] + [e1, e2, e3, e4, e5, EndPass];
    assert [e1, e2, e3, e4, e5, EndPass] == [e1] + [e2, e3, e4, e5, EndPass];
    assert [e2, e3, e4, e5, EndPass] == [e2] + [e3, e4, e5, EndPass];
    assert [e3, e4, e5, EndPass] == [e3] + [e4, e5, EndPass] && [e4, e5, EndPass] == [e4] + [e5, EndPass];
    assert [e5, EndPass] == [e5] + [EndPass] && [EndPass] == [EndPass] + [];
  }

  lemma DropFirst(e: Event, more: seq<Event>)
    ensures WithoutArrivals([e] + more) == (if e.Arrive? then [] else [e]) + WithoutArrivals(more)
  {
    assert ([e] + more)[1..] == more;
  }

  lemma NothingToDrop()
    ensures WithoutArrivals([]) == []
  {
  }

  /** Equal messages are not merged: of two that are in the table each has a row of its own. */
  lemma EachHasItsOwnRow(kind: Kind, modemId: string, events: seq<Event>, m: Sms, n: Sms)
    requires var s := Run(Initial(kind, modemId), events);
             m != n && {m, n} <= s.arrived && HasRow(s, m) && HasRow(s, n)
    ensures var s := Run(Initial(kind, modemId), events);
            && |s.origins| == |s.rows|
            && (exists i, j :: 0 <= i < |s.rows| && 0 <= j < |s.rows| && IsRowOf(s, i, m) && IsRowOf(s, j, n))
            && forall i :: 0 <= i < |s.rows| ==> !(IsRowOf(s, i, m) && IsRowOf(s, i, n))
  {
    hide Run;
    Reachable(kind, modemId, events);
    var s := Run(Initial(kind, modemId), events);
    var i :| 0 <= i < |s.rows| && IsRowOf(s, i, m);
    var j :| 0 <= j < |s.rows| && IsRowOf(s, j, n);
  }

  /**
    An event takes a message off the device only as a target of a pass that has stored all it read;
    the message is in the table exactly if it is the one that pass had read from there.
   */
  lemma OnlyTargetsLeave(kind: Kind, modemId: string, events: seq<Event>, e: Event, m: Sms)
    requires Enabled(Run(Initial(kind, modemId), events), e)
    requires var s := Run(Initial(kind, modemId), events);
             m in s.slots.Values && m !in Apply(s, e).slots.Values
    ensures var s := Run(Initial(kind, modemId), events);
            && s.pass.Deleting? && (forall k :: k in s.pass.read ==> HasRow(s, s.pass.read[k]))
            && exists k :: k in s.pass.left && k in s.slots && k in s.pass.read && s.slots[k] == m &&
                           (HasRow(s, m) <==> s.pass.read[k] == m)
    ensures kind == Serial ==> HasRow(Run(Initial(kind, modemId), events), m)
  {
    hide Run, HasRow;
    Reachable(kind, modemId, events);
    var s := Run(Initial(kind, modemId), events);
    var k :| k in s.slots && s.slots[k] == m;
    if !(e.Delete? && k in e.applied) {
      StaysInItsSlot(s, e, k);
    }
    assert k in s.pass.left;
  }

  lemma StaysInItsSlot(s: Site, e: Event, k: nat)
    requires Enabled(s, e) && k in s.slots && !(e.Delete? && k in e.applied)
    ensures s.slots[k] in Apply(s, e).slots.Values
  {
    assert Apply(s, e).slots[k] == s.slots[k];
  }

  // ----- What a driver may do --------------------------------------------------------------------

  /** How far a driver is: it knows what it has listed, but not what else is on the device. */
  datatype Progress = NoPass | HasRead(items: seq<Item>) | MayDelete(left: set<nat>)

  /** The order of a pass: list, persist exactly what was listed, delete no more than that. */
  function Advance(kind: Kind, p: Progress, e: Event): Option<Progress> {
    match e
    case Arrive(_, _) => Some(p)
    case List(items) => Some(HasRead(items))
    case Persist(items, _) => if p == HasRead(items) then Some(MayDelete(SlotsOf(items))) else None
    case PersistThrows => if p.HasRead? then Some(NoPass) else None
    case Delete(targets, applied, acked) =>
      if !(p.MayDelete? && targets <= p.left && applied <= targets && (acked ==> applied == targets)) then None
      else if acked then Some(MayDelete(p.left - targets))
      else if kind == Serial then Some(NoPass)
      else Some(p)
    case EndPass => Some(NoPass)
  }

  function AdvanceAll(kind: Kind, p: Progress, events: seq<Event>): Option<Progress>
    decreases |events|
  {
    if events == [] then Some(p)
    else
      var q :- Advance(kind, p, events[0]);
      AdvanceAll(kind, q, events[1..])
  }

  lemma {:induction false} AdvanceInTwo(kind: Kind, p: Progress, a: seq<Event>, b: seq<Event>)
    ensures AdvanceAll(kind, p, a + b) ==
            match AdvanceAll(kind, p, a) case None => None case Some(q) => AdvanceAll(kind, q, b)
    decreases |a|
  {
    hide Advance;
    if a == [] {
      assert a + b == b;
    } else {
      assert (a + b)[1..] == a[1..] + b;
      if Advance(kind, p, a[0]).Some? {
        AdvanceInTwo(kind, Advance(kind, p, a[0]).value, a[1..], b);
      }
    }
  }

  /** Every listing shows each slot once. */
  predicate DistinctLists(events: seq<Event>) {
    forall i :: 0 <= i < |events| && events[i].List? ==> DistinctSlots(events[i].items)
  }

  /** What the driver itself does. */
  function WithoutArrivals(events: seq<Event>): seq<Event> {
    if events == [] then []
    else (if events[0].Arrive? then [] else [events[0]]) + WithoutArrivals(events[1..])
  }

  /** Messages arrive in free slots, and listings say what is there. */
  predicate EnvironmentOk(s: Site, events: seq<Event>)
    decreases |events|
  {
    events != [] ==>
      && (events[0].Arrive? || events[0].List? ==> Enabled(s, events[0]))
      && (Enabled(s, events[0]) ==> EnvironmentOk(Apply(s, events[0]), events[1..]))
  }

  /** Every event can happen where it stands. */
  predicate IsRun(s: Site, events: seq<Event>)
    decreases |events|
  {
    events == [] || (Enabled(s, events[0]) && IsRun(Apply(s, events[0]), events[1..]))
  }

  /** The pass as the driver sees it. */
  predicate Agrees(p: Progress, pass: Pass) {
    match p
    case NoPass => true
    case HasRead(items) => pass.Reading? && Shows(items, pass.read) && SlotsOf(items) == pass.read.Keys
    case MayDelete(left) => pass.Deleting? && pass.left == left
  }

  lemma StepAgrees(s: Site, p: Progress, e: Event)
    requires Agrees(p, s.pass) && Advance(s.kind, p, e).Some?
    requires e.Arrive? || e.List? ==> Enabled(s, e)
    ensures Enabled(s, e) && Agrees(Advance(s.kind, p, e).value, Apply(s, e).pass)
    ensures Apply(s, e).kind == s.kind
  {
    if e.List? {
      assert SlotsOf(e.items) <= s.slots.Keys;
      assert Apply(s, e).pass.read.Keys == SlotsOf(e.items);
    }
  }

  lemma {:induction false} FollowingIsRunning(s: Site, p: Progress, events: seq<Event>)
    requires Agrees(p, s.pass) && EnvironmentOk(s, events)
    requires AdvanceAll(s.kind, p, WithoutArrivals(events)).Some?
    ensures IsRun(s, events)
    ensures Agrees(AdvanceAll(s.kind, p, WithoutArrivals(events)).value, Run(s, events).pass)
    decreases |events|
  {
    hide Agrees, Enabled, Apply;
    if events != [] {
      var e := events[0];
      if e.Arrive? {
        assert WithoutArrivals(events) == WithoutArrivals(events[1..]);
        StepAgrees(s, p, e);
        FollowingIsRunning(Apply(s, e), p, events[1..]);
      } else {
        var rest := WithoutArrivals(events[1..]);
        assert ([e] + rest)[1..] == rest;
        StepAgrees(s, p, e);
        FollowingIsRunning(Apply(s, e), Advance(s.kind, p, e).value, events[1..]);
      }
    }
  }

  /**
    A driver whose reads, persists and deletions follow the protocol does nothing the machine
    would not let it do, whatever arrives in between: what is not safe afterwards was not safe
    before, or arrived in a slot that a deletion under way still named. The site is ready for what
    the driver does next.
   */
  lemma FollowingLosesOnlyByClash(s: Site, p: Progress, events: seq<Event>)
    requires Inv(s) && Agrees(p, s.pass) && EnvironmentOk(s, events)
    requires AdvanceAll(s.kind, p, WithoutArrivals(events)).Some?
    ensures IsRun(s, events) && Inv(Run(s, events)) && Run(s, events).kind == s.kind
    ensures Agrees(AdvanceAll(s.kind, p, WithoutArrivals(events)).value, Run(s, events).pass)
    ensures forall m :: m in Run(s, events).arrived && !Safe(Run(s, events), m) ==>
              (m in s.arrived && !Safe(s, m)) || Clashed(s, events, m)
  {
    hide Run, EnvironmentOk, WithoutArrivals, IsRun, HasRow, Agrees, Inv, Safe, Clashed;
    FollowingIsRunning(s, p, events);
    RunsKeepInv(s, events);
    forall m | m in Run(s, events).arrived && !Safe(Run(s, events), m)
      ensures (m in s.arrived && !Safe(s, m)) || Clashed(s, events, m)
    {
      if m !in s.arrived || Safe(s, m) {
        UnsafeOnlyByClash(s, events, m);
      }
    }
  }
}
