/**
  The serial stick as a whole: a modem that prints its storage (`Listing`), the driver's tasks that
  read and delete it (`SerialTasks`), and the machine of storage and inbox table (`Inbox`).
 */
module SerialStorage {
  import opened Wrappers
  import opened Framing
  import opened SerialDriver
  import opened Listing
  import opened SerialTasks
  import Inbox

  /** A response to the listing command: the driver it finds, what is printed, and the chunks. */
  datatype Printing = Printing(driver: Driver, stored: seq<Stored>, chunks: seq<string>)

  function ContentOf(m: Stored): Inbox.Content {
    Inbox.Content(m.from, m.date, Inbox.Chars(JoinLines(m.body)))
  }

  /** Each slot is printed once. */
  predicate DistinctIndexes(stored: seq<Stored>) {
    forall i, j :: 0 <= i < j < |stored| ==> stored[i].index != stored[j].index
  }

  /** The chunks are the response to the command just written, and nobody else listens for its lines. */
  predicate IsPrinting(p: Printing) {
    && HasJustAsked(p.driver) && AllFramable(p.stored) && DistinctIndexes(p.stored)
    && NobodyWaitsFor(p.driver, LinesOfStored(p.stored) + ["OK"])
    && Concatenation(p.chunks) == Response(p.stored)
  }

  /** What is printed is in the slots. */
  predicate StoredIn(stored: seq<Stored>, slots: map<nat, Inbox.Sms>) {
    forall i :: 0 <= i < |stored| ==>
      stored[i].index in slots && slots[stored[i].index].content == ContentOf(stored[i])
  }

  /** What the driver reads out of the response, if the command succeeds. */
  function ItemsRead(p: Printing): Option<seq<Inbox.Item>> {
    var lines :- LinesSettled(p.driver, ReceiveAll(p.driver, p.chunks));
    Some(ItemsOf(ReadLines([], lines)))
  }

  /** Every listing is what the driver reads out of a response. */
  predicate ListsAreRead(events: seq<Inbox.Event>, prints: seq<Printing>)
    requires |prints| == |events|
  {
    forall i :: 0 <= i < |events| && events[i].List? ==>
      IsPrinting(prints[i]) && ItemsRead(prints[i]) == Some(events[i].items)
  }

  /** The modem prints what it has at that moment, and messages arrive in free slots. */
  predicate PrintsStorage(s: Inbox.Site, events: seq<Inbox.Event>, prints: seq<Printing>)
    requires |prints| == |events|
    decreases |events|
  {
    events != [] ==>
      && (events[0].Arrive? ==> Inbox.Enabled(s, events[0]))
      && (events[0].List? ==> StoredIn(prints[0].stored, s.slots))
      && (Inbox.Enabled(s, events[0]) ==> PrintsStorage(Inbox.Apply(s, events[0]), events[1..], prints[1..]))
  }

  /** No text printed in a listing has a mistakable line. */
  predicate AllListsClean(events: seq<Inbox.Event>, prints: seq<Printing>)
    requires |prints| == |events|
  {
    forall i :: 0 <= i < |events| && events[i].List? ==> AllClean(prints[i].stored)
  }

  lemma CutIsNotShown(stored: seq<Stored>, slots: map<nat, Inbox.Sms>, read: seq<Message>, k: nat, j: nat)
    requires AllFramable(stored) && StoredIn(stored, slots) && ReadsCut(stored, read, k, j)
    ensures !Inbox.Shows(ItemsOf(read), slots)
  {
    hide Framable, JoinLines;
    CutIsShorter(stored[k], j);
    var item := ItemsOf(read)[k];
    assert item.slot == stored[k].index && slots[item.slot].content == ContentOf(stored[k]);
  }

  lemma CleanIsRead(p: Printing)
    requires IsPrinting(p) && ItemsRead(p).Some? && AllClean(p.stored)
    ensures ItemsRead(p).value == ItemsOf(MessagesOf(p.stored)) && Inbox.DistinctSlots(ItemsRead(p).value)
  {
    hide AllFramable, AllClean, HasJustAsked, LinesOfStored, NobodyWaitsFor, Response, Concatenation, ReceiveAll,
      ReadLines, Heard, JoinLines;
    ListingRoundTrip(p.driver, p.stored, p.chunks);
  }

  lemma CleanIsShown(stored: seq<Stored>, slots: map<nat, Inbox.Sms>)
    requires StoredIn(stored, slots)
    ensures Inbox.Shows(ItemsOf(MessagesOf(stored)), slots)
  {
    hide JoinLines;
  }

  /** What is read out of a printed storage says what is in the slots if and only if every text is clean. */
  lemma ListingIsTrueIffClean(p: Printing, s: Inbox.Site)
    requires IsPrinting(p) && StoredIn(p.stored, s.slots) && ItemsRead(p).Some?
    ensures Inbox.Enabled(s, Inbox.List(ItemsRead(p).value)) <==> AllClean(p.stored)
  {
    hide Inbox.Shows, Inbox.DistinctSlots, ItemsOf, ReadLines, MessagesOf, StoredIn, ReceiveAll, AllFramable, AllClean,
      HasJustAsked, LinesOfStored, NobodyWaitsFor, Response, Concatenation, ReadsCut, Heard, DistinctIndexes;
    if AllClean(p.stored) {
      CleanIsRead(p);
      CleanIsShown(p.stored, s.slots);
    } else {
      ListingRoundTrip(p.driver, p.stored, p.chunks);
      var read := ReadLines([], LinesSettled(p.driver, ReceiveAll(p.driver, p.chunks)).value);
      var k: nat, j: nat :| ReadsCut(p.stored, read, k, j);
      CutIsNotShown(p.stored, s.slots, read, k, j);
    }
  }

  lemma ListsAreReadLater(events: seq<Inbox.Event>, prints: seq<Printing>)
    requires |prints| == |events| != 0 && ListsAreRead(events, prints)
    ensures ListsAreRead(events[1..], prints[1..])
    ensures AllListsClean(events, prints) <==>
              (events[0].List? ==> AllClean(prints[0].stored)) && AllListsClean(events[1..], prints[1..])
  {
    hide IsPrinting, ItemsRead, AllClean;
    var later, laterPrints := events[1..], prints[1..];
    forall i | 0 <= i < |later| && later[i].List?
      ensures IsPrinting(laterPrints[i]) && ItemsRead(laterPrints[i]) == Some(later[i].items)
      ensures AllListsClean(events, prints) ==> AllClean(laterPrints[i].stored)
    {
      assert later[i] == events[i + 1] && laterPrints[i] == prints[i + 1];
    }
    forall i | 1 <= i < |events| && events[i].List?
      ensures AllListsClean(later, laterPrints) ==> AllClean(prints[i].stored)
    {
      assert later[i - 1] == events[i] && laterPrints[i - 1] == prints[i];
    }
  }

  lemma {:induction false} CleanEnvironmentIsOk(s: Inbox.Site, events: seq<Inbox.Event>, prints: seq<Printing>)
    requires |prints| == |events| && ListsAreRead(events, prints) && PrintsStorage(s, events, prints)
    requires AllListsClean(events, prints)
    ensures Inbox.EnvironmentOk(s, events)
    decreases |events|
  {
    hide Inbox.Enabled, Inbox.Apply, IsPrinting, ItemsRead, StoredIn, AllClean;
    if events != [] {
      if events[0].List? {
        ListingIsTrueIffClean(prints[0], s);
      }
      ListsAreReadLater(events, prints);
      if Inbox.Enabled(s, events[0]) {
        CleanEnvironmentIsOk(Inbox.Apply(s, events[0]), events[1..], prints[1..]);
      }
    }
  }

  lemma {:induction false} RunsAreClean(s: Inbox.Site, events: seq<Inbox.Event>, prints: seq<Printing>)
    requires |prints| == |events| && ListsAreRead(events, prints) && PrintsStorage(s, events, prints)
    requires Inbox.IsRun(s, events)
    ensures AllListsClean(events, prints)
    decreases |events|
  {
    hide Inbox.Enabled, Inbox.Apply, IsPrinting, ItemsRead, StoredIn, AllClean;
    if events != [] {
      if events[0].List? {
        ListingIsTrueIffClean(prints[0], s);
      }
      ListsAreReadLater(events, prints);
      RunsAreClean(Inbox.Apply(s, events[0]), events[1..], prints[1..]);
    }
  }

  lemma {:induction false} CleanListsAreDistinct(events: seq<Inbox.Event>, prints: seq<Printing>)
    requires |prints| == |events| && ListsAreRead(events, prints) && AllListsClean(events, prints)
    ensures Inbox.DistinctLists(Inbox.WithoutArrivals(events))
    decreases |events|
  {
    hide IsPrinting, ItemsRead, AllClean, Inbox.DistinctSlots;
    if events != [] {
      if events[0].List? {
        CleanIsRead(prints[0]);
      }
      ListsAreReadLater(events, prints);
      CleanListsAreDistinct(events[1..], prints[1..]);
    }
  }

  /**
    The driver's tasks against a modem that prints its storage, with arrivals anywhere between
    their steps: what happens is a run of the inbox machine if and only if no text it prints has a
    mistakable line, and then no message is lost.
   */
  lemma StorageIsReadIffClean(steps: seq<Step>, modemId: string, events: seq<Inbox.Event>, prints: seq<Printing>)
    requires ReadsInOrder(Inbox.NoPass, steps) && Inbox.WithoutArrivals(events) == InboxEvents(steps)
    requires |prints| == |events| && ListsAreRead(events, prints)
    requires PrintsStorage(Inbox.Initial(Inbox.Serial, modemId), events, prints)
    ensures var site := Inbox.Initial(Inbox.Serial, modemId);
            && (Inbox.IsRun(site, events) <==> AllListsClean(events, prints))
            && (AllListsClean(events, prints) ==> Inbox.Conserved(Inbox.Run(site, events)))
  {
    hide InboxEvents, Inbox.IsRun, Inbox.EnvironmentOk, Inbox.WithoutArrivals, Inbox.Run, Inbox.Conserved, ReadsInOrder,
      ListsAreRead, PrintsStorage, AllListsClean, Inbox.DistinctLists;
    var site := Inbox.Initial(Inbox.Serial, modemId);
    if AllListsClean(events, prints) {
      CleanEnvironmentIsOk(site, events, prints);
      CleanListsAreDistinct(events, prints);
      SerialReadsLoseNothing(steps, modemId, events);
    }
    if Inbox.IsRun(site, events) {
      RunsAreClean(site, events, prints);
    }
  }
}
