/** Opt-outs over whole runs: contact operations, imports, replies and the ticks of the two engines that
    write to contacts, in any order. */
module Consent {
  import opened Core
  import opened Models
  import opened ContactBook
  import Identity
  import Inbox
  import Sender
  import SenderLaws
  import Campaigns
  import CampaignLaws

  /** Each tick brings its own accounts, targets, clock and answers; `next` is the free contact id, which a
      tick leaves alone. The other engines change no contact. */
  datatype Event =
    | BookOp(book: Identity.Book, op: Identity.Op)
    | SenderTick(job: Sender.Scene, next: int)
    | CampaignTick(campaign: Campaigns.Scene, next: int)

  function Found(e: Event): Identity.Book {
    match e
    case BookOp(book, _) => book
    case SenderTick(x, next) => Identity.Book(x.contacts, next)
    case CampaignTick(x, next) => Identity.Book(x.contacts, next)
  }

  function Left(e: Event): Identity.Book {
    match e
    case BookOp(book, op) => Identity.Apply(book, op)
    case SenderTick(x, next) => Identity.Book(Sender.Tick(x).contacts, next)
    case CampaignTick(x, next) => Identity.Book(Campaigns.Tick(x).contacts, next)
  }

  /** Whom an event has the engine act on. */
  ghost function Approached(e: Event): seq<int> {
    match e
    case BookOp(_, _) => []
    case SenderTick(x, _) => SenderLaws.Approached(x)
    case CampaignTick(x, _) => CampaignLaws.Approached(x)
  }

  predicate Clears(e: Event, c: int) {
    e.BookOp? && Identity.Clears(e.op, c)
  }

  function BookAfter(start: Identity.Book, events: seq<Event>): Identity.Book {
    if events == [] then start else Left(events[|events| - 1])
  }

  /** Each event finds the book as the one before left it. */
  ghost predicate Chained(start: Identity.Book, events: seq<Event>) {
    events == []
    || (var front, e := events[..|events| - 1], events[|events| - 1];
        Chained(start, front) && Found(e) == BookAfter(start, front))
  }

  ghost predicate OptedOutIn(b: Identity.Book, c: int) {
    c in b.rows && b.rows[c].optedOut
  }

  lemma SenderKeepsFlags(x: Sender.Scene, c: int)
    requires c in x.contacts
    ensures c in Sender.Tick(x).contacts && Sender.Tick(x).contacts[c].optedOut == x.contacts[c].optedOut
  {
    hide Sender.StatusAfter, Sender.AccountsAfter, Sender.SummaryOf, Sender.TargetsAfter, Sender.Fits;
    if Sender.Works(x) {
      SenderLaws.GreetKeepsConsent(x, Sender.PlanOf(x), Sender.PlanOf(x).attempts, c);
    }
  }

  lemma CampaignKeepsFlags(x: Campaigns.Scene, c: int)
    requires c in x.contacts
    ensures c in Campaigns.Tick(x).contacts && Campaigns.Tick(x).contacts[c].optedOut == x.contacts[c].optedOut
  {
    hide Campaigns.StatusAfter, Campaigns.AccountsAfter, Campaigns.SummaryOf, Campaigns.TargetsAfter, Campaigns.Fits;
    if Campaigns.Works(x) {
      CampaignLaws.GreetKeepsConsent(x, Campaigns.PlanOf(x), Campaigns.PlanOf(x).attempts, c);
    }
  }

  lemma SenderKeepsIds(x: Sender.Scene)
    ensures Sender.Tick(x).contacts.Keys == x.contacts.Keys
  {
    hide Sender.StatusAfter, Sender.AccountsAfter, Sender.SummaryOf, Sender.TargetsAfter, Sender.Fits;
  }

  lemma CampaignKeepsIds(x: Campaigns.Scene)
    ensures Campaigns.Tick(x).contacts.Keys == x.contacts.Keys
  {
    hide Campaigns.StatusAfter, Campaigns.AccountsAfter, Campaigns.SummaryOf, Campaigns.TargetsAfter, Campaigns.Fits;
  }

  /** Free ids stay free. */
  lemma EventKeepsIds(e: Event)
    requires IdsBelow(Found(e).rows, Found(e).next)
    ensures IdsBelow(Left(e).rows, Left(e).next)
  {
    hide Sender.Tick, Campaigns.Tick, Identity.Apply;
    match e {
      case BookOp(book, op) => Identity.OpKeepsIds(book, op);
      case SenderTick(x, _) => SenderKeepsIds(x);
      case CampaignTick(x, _) => CampaignKeepsIds(x);
    }
  }

  lemma {:induction false} RunKeepsIds(start: Identity.Book, events: seq<Event>)
    requires Chained(start, events) && IdsBelow(start.rows, start.next)
    ensures IdsBelow(BookAfter(start, events).rows, BookAfter(start, events).next)
  {
    hide Found, Left, IdsBelow;
    if events == [] {
    } else {
      RunKeepsIds(start, events[..|events| - 1]);
      EventKeepsIds(events[|events| - 1]);
    }
  }

  lemma EventKeepsOptOut(e: Event, c: int)
    requires OptedOutIn(Found(e), c) && !Clears(e, c) && IdsBelow(Found(e).rows, Found(e).next)
    ensures OptedOutIn(Left(e), c)
  {
    hide Sender.Tick, Campaigns.Tick, Identity.Apply;
    match e {
      case BookOp(book, op) => Identity.OptOutSurvives(book, op, c);
      case SenderTick(x, _) => SenderKeepsFlags(x, c);
      case CampaignTick(x, _) => CampaignKeepsFlags(x, c);
    }
  }

  lemma {:induction false} ChainedFront(start: Identity.Book, events: seq<Event>, i: nat)
    requires Chained(start, events) && i <= |events|
    ensures Chained(start, events[..i])
    decreases |events|
  {
    hide Found, Left;
    if i == |events| {
      assert events[..i] == events;
    } else {
      ChainedFront(start, events[..|events| - 1], i);
      assert events[..|events| - 1][..i] == events[..i];
    }
  }

  /** What an event of a run finds and leaves. */
  lemma FoundAt(start: Identity.Book, events: seq<Event>, i: nat)
    requires Chained(start, events) && i < |events|
    ensures Found(events[i]) == BookAfter(start, events[..i]) && Left(events[i]) == BookAfter(start, events[..i + 1])
  {
    hide Found, Left;
    ChainedFront(start, events, i + 1);
    assert events[..i + 1][..i] == events[..i];
  }

  /** An opt-out recorded by the first `i` events is still there after all of them, unless one clears it. */
  lemma {:induction false} OptOutStays(start: Identity.Book, events: seq<Event>, i: nat, c: int)
    requires Chained(start, events) && IdsBelow(start.rows, start.next) && i <= |events|
    requires OptedOutIn(BookAfter(start, events[..i]), c)
    requires forall j :: i <= j < |events| ==> !Clears(events[j], c)
    ensures OptedOutIn(BookAfter(start, events), c)
    decreases |events|
  {
    hide Found, Left, Clears, IdsBelow, OptedOutIn;
    if i == |events| {
      assert events[..i] == events;
    } else {
      var front := events[..|events| - 1];
      assert front[..i] == events[..i];
      forall j | i <= j < |front| ensures !Clears(front[j], c) {
        assert front[j] == events[j];
      }
      OptOutStays(start, front, i, c);
      RunKeepsIds(start, front);
      EventKeepsOptOut(events[|events| - 1], c);
    }
  }

  lemma OnlyReachable(e: Event, c: int)
    requires c in Approached(e)
    ensures Reachable(Found(e).rows, c)
  {
    match e {
      case BookOp(_, _) =>
      case SenderTick(x, _) => SenderLaws.OnlyReachable(x, c);
      case CampaignTick(x, _) => CampaignLaws.OnlyReachable(x, c);
    }
  }

  /** Honoured over whole runs: once an opt-out is recorded, no sender or campaign tick acts on that contact,
      whatever imports, edits, saves, statuses and ticks come in between, until somebody gives consent
      again, un-ticks the flag or deletes the contact. */
  lemma OptOutIsHonoured(start: Identity.Book, events: seq<Event>, i: nat, j: nat, c: int)
    requires Chained(start, events) && IdsBelow(start.rows, start.next) && i <= j < |events|
    requires OptedOutIn(BookAfter(start, events[..i]), c)
    requires forall k :: i <= k < j ==> !Clears(events[k], c)
    ensures c !in Approached(events[j])
  {
    hide Found, Left, Clears, Approached, IdsBelow;
    var before := events[..j];
    ChainedFront(start, events, j);
    FoundAt(start, events, j);
    assert before[..i] == events[..i];
    forall k | i <= k < |before| ensures !Clears(before[k], c) {
      assert before[k] == events[k];
    }
    OptOutStays(start, before, i, c);
    if c in Approached(events[j]) {
      OnlyReachable(events[j], c);
      assert false;
    }
  }

  /** The operations that record an opt-out: an opt-out reply of a known contact, the opted-out status set on
      its conversation, and the opted-out stage set on the contact. */
  predicate Records(e: Event, c: int) {
    e.BookOp? && c in e.book.rows
    && match e.op
       case StopReply(id) => id == c
       case SetStatus(id, status) => id == c && status.OptedOut?
       case PatchIt(id, stage, _, _) => id == c && stage == Some(OptedOut)
       case _ => false
  }

  lemma RecordedOptOut(e: Event, c: int)
    requires Records(e, c)
    ensures OptedOutIn(Left(e), c)
  {
  }

  /** So from the event that records an opt-out on, no sender or campaign tick acts on the contact until an
      event clears it. */
  lemma OptOutHoldsFromItsRecord(start: Identity.Book, events: seq<Event>, i: nat, j: nat, c: int)
    requires Chained(start, events) && IdsBelow(start.rows, start.next) && i < j < |events| && Records(events[i], c)
    requires forall k :: i < k < j ==> !Clears(events[k], c)
    ensures c !in Approached(events[j])
  {
    hide Found, Left, Clears, Approached, IdsBelow, Records, OptedOutIn;
    RecordedOptOut(events[i], c);
    FoundAt(start, events, i);
    OptOutIsHonoured(start, events, i + 1, j, c);
  }

  /** An opt-out message of a known contact is such an event. */
  lemma ReplyIsRecorded(b: Identity.Book, c: int, text: Option<string>)
    requires c in b.rows && Inbox.IsOptOut(text)
    ensures Inbox.BookAfter(b.rows, One(c), text) == Identity.Apply(b, Identity.StopReply(c)).rows
    ensures Records(BookOp(b, Identity.StopReply(c)), c)
  {
    hide Inbox.IsOptOut;
  }
}
