/** Concrete scenes in which the code does less than its documentation says: an add tick that acts on a
    contact who opted out, a STOP that nobody hears, a job that runs on with an empty queue, and two sends in a
    row from one account. */
module Findings {
  import opened Core
  import opened Ordering
  import opened Models
  import opened Text
  import ContactBook
  import Pool
  import Inbox
  import Sender
  import SenderLaws
  import Rotation
  import Destinations
  import DestinationLaws

  const ACCOUNT := Account(Active, true, None, None, 5, 0, None, 0, None)

  function Lead(phone: Option<string>): Contact {
    ContactBook.NewContact(None, phone, None, None, true)
  }

  lemma OneById(a: int)
    ensures ById({a}) == [a]
  {
    assert |ById({a})| == 1 && ById({a})[0] in ById({a});
  }

  lemma TwoById(a: int, b: int)
    requires a < b
    ensures ById({a, b}) == [a, b]
  {
    ByIdClimbs({a, b});
    var ids := ById({a, b});
    assert |ids| == 2 && ids[0] in ids && ids[1] in ids;
  }

  lemma {:induction false} FilterAll(ids: seq<int>, keep: set<int>)
    requires forall id :: id in ids ==> id in keep
    ensures Filter(ids, keep) == ids
  {
    if ids == [] {
    } else {
      assert ids == ids[..|ids| - 1] + [ids[|ids| - 1]];
      FilterAll(ids[..|ids| - 1], keep);
    }
  }

  /** When every target is queued and its contact reachable, a sender tick plans them all. */
  lemma AllPlanned(targets: map<int, SendTarget>, contacts: Contacts)
    requires forall t :: t in targets ==> targets[t].state.Queued? && Reachable(contacts, targets[t].contactId)
    ensures Sender.Valid(targets, contacts) == ById(targets.Keys)
  {
    var queued, reachable := Sender.QueuedSet(targets), Sender.ReachableSet(targets, contacts);
    assert forall t :: t in targets.Keys ==> t in queued && t in reachable;
    assert queued == targets.Keys && reachable == targets.Keys;
    FilterAll(ById(targets.Keys), targets.Keys);
  }

  /** Accounts in good order are all usable. */
  lemma AllUsable(accounts: Accounts, last: Option<int>)
    requires forall a :: a in accounts ==> accounts[a] == ACCOUNT
    ensures Pool.UsableSet(accounts, 0, 40) == accounts.Keys && |Pool.Order(accounts, 0, 40, last)| == |accounts|
  {
    var usable := Pool.UsableSet(accounts, 0, 40);
    assert forall a :: a in accounts.Keys ==> a in usable;
    assert usable == accounts.Keys;
    Pool.OrderIsUsable(accounts, 0, 40, last);
  }

  // ----------------------------------------------------------------------- add ticks ---

  /** One account, and one pending membership whose contact opted out. */
  function AddScene(execute: Destinations.Executor): Destinations.Scene {
    Destinations.Scene(map[1 := ACCOUNT], map[1 := ContactBook.OptedOutNow(Lead(Some("+1")))],
                       Destination(true, map[1 := Membership(1, Pending, None)]), 0, execute, 40)
  }

  /** The add tick acts on that contact, whatever is answered. */
  lemma AddTickActsOnOptedOut(execute: Destinations.Executor)
    ensures var x := AddScene(execute); x.contacts[1].optedOut && 1 in DestinationLaws.Approached(x)
  {
    var x := AddScene(execute);
    AllUsable(x.accounts, None);
    assert Destinations.PendingSet(x.destination.memberships) == {1};
    OneById(1);
    assert Destinations.Queue(x.destination.memberships) == [1];
    assert |Destinations.TickOrder(x)| == 1;
    hide Destinations.Queue, Destinations.TickOrder;
    Pool.MadeSome(Destinations.Effects(x, [1]), 1);
    assert Destinations.Works(x) && Destinations.Attempts(x) > 0;
    assert DestinationLaws.ContactAt(x, 0) == 1;
  }

  // -------------------------------------------------------------------- unheard STOPs ---

  const TEXT_JOB := SendJob("hi", false, None, true, 0, 23 * 60 + 59, Running, None, None,
                            map[1 := SendTarget(1, Queued, None, None, None)])

  /** The contacts after a STOP from a peer who is a contact known by phone, whose Telegram id was never
      resolved. */
  function BookAfterStop(): Contacts {
    var rows := map[1 := Lead(Some("+1"))];
    Inbox.BookAfter(rows, ContactBook.FindByPeer(rows, Some(7), None), Some("STOP"))
  }

  function StopScene(execute: Sender.Executor, draws: Sender.Draws): Sender.Scene {
    Sender.Scene(map[1 := ACCOUNT], BookAfterStop(), TEXT_JOB, 0, execute, draws, 40)
  }

  /** The reply finds nobody, and the next sender tick writes to the contact again. */
  lemma StopByPhoneIsNotHeard(execute: Sender.Executor, draws: Sender.Draws)
    ensures ContactBook.FindByPeer(map[1 := Lead(Some("+1"))], Some(7), None).Nobody?
    ensures 1 in SenderLaws.Approached(StopScene(execute, draws))
  {
    var rows := map[1 := Lead(Some("+1"))];
    assert ContactBook.ByTelegramId(rows, 7) == {};
    assert BookAfterStop() == rows;
    OneTargetIsTried(StopScene(execute, draws));
  }

  /** A sender tick with one usable account and one queued target of a reachable contact tries that contact. */
  lemma OneTargetIsTried(x: Sender.Scene)
    requires x.accounts == map[1 := ACCOUNT] && x.job == TEXT_JOB && x.now == 0 && x.minDelay == 40
      && Reachable(x.contacts, 1)
    ensures Sender.Works(x) && 1 in SenderLaws.Approached(x) && 1 in SenderLaws.Attempted(x)
    ensures Sender.PlanOf(x).attempts == 1
  {
    hide Sender.Valid, Pool.Order, Pool.UsableSet, ById, Reachable, Pool.Made;
    AllUsable(x.accounts, None);
    AllPlanned(x.job.targets, x.contacts);
    assert x.job.targets.Keys == {1};
    OneById(1);
    var p := Sender.PlanOf(x);
    assert |p.order| == 1 && p.valid == [1];
    Pool.MadeSome(Sender.Effects(x.execute), 1);
    assert SenderLaws.Approached(x)[0] == 1 && SenderLaws.Attempted(x)[0] == 1;
  }

  // ---------------------------------------------------------------- emptied, still running ---

  /** A tick answered without a warning empties the queue and leaves the job running, whether or not the answer
      flushed the session. */
  lemma EmptiedQueueStaysRunning(execute: Sender.Executor, draws: Sender.Draws)
    requires !execute(0).outcome.Warned?
    ensures var x := Sender.Scene(map[1 := ACCOUNT], map[1 := Lead(Some("+1"))], TEXT_JOB, 0, execute, draws, 40);
      && Sender.QueuedSet(x.job.targets) == {1}
      && Sender.QueuedSet(Sender.Tick(x).job.targets) == {} && Sender.Tick(x).job.status.Running?
  {
    hide Sender.Tick, Sender.Works, Sender.PlanOf, SenderLaws.Attempted, Sender.Effects, Sender.TargetsAfter,
      Sender.Fits;
    var x := Sender.Scene(map[1 := ACCOUNT], map[1 := Lead(Some("+1"))], TEXT_JOB, 0, execute, draws, 40);
    OneTargetIsTried(x);
    SenderLaws.TargetFate(x, 1);
    SenderLaws.WorkingTick(x);
    SenderLaws.CompletionExact(x);
    SenderLaws.OnlyLastWarned(x);
    assert 1 in Sender.QueuedSet(x.job.targets);
  }

  // ---------------------------------------------------------------- the same account again ---

  /** Two accounts, the second one used last; the first attempt is a plain failure and the second a delivery. */
  function AgainScene(phone: Option<string>, draws: Sender.Draws): Sender.Scene {
    Sender.Scene(
      map[1 := ACCOUNT, 2 := ACCOUNT], map[1 := Lead(phone), 2 := Lead(Some("+2"))],
      SendJob("hi", false, None, true, 0, 23 * 60 + 59, Running, Some(2), None,
              map[1 := SendTarget(1, Queued, None, None, None), 2 := SendTarget(2, Queued, None, None, None)]),
      0, (k: nat) => Sender.Execution(if k == 0 then Sender.Unreached else Sender.Delivered, false), draws, 40)
  }

  ghost predicate SecondSendsAgain(x: Sender.Scene) {
    && Pool.UsableSet(x.accounts, x.now, x.minDelay) == {1, 2} && x.job.lastAccountId == Some(2)
    && Rotation.MissingFails(x) && Rotation.SendsAgain(x)
  }

  /** When the first contact has nothing to send to, the second account sends again. */
  lemma SameAccountTwice(draws: Sender.Draws)
    ensures var x := AgainScene(None, draws);
      |Sender.PlanOf(x).cids| == 2 && Rotation.Unaddressed(x, 0) && SecondSendsAgain(x)
  {
    hide Sender.Tick, Sender.PlanOf, Sender.Works, Pool.UsableSet, SecondSendsAgain;
    AgainPlan(None, draws);
    AgainSends(None, draws);
  }

  /** So it does when both contacts have a phone and the first warning comes without a text, which the tick takes
      for a plain failure. */
  lemma SameAccountAfterSilentWarning(draws: Sender.Draws)
    ensures var x := AgainScene(Some("+1"), draws);
      |Sender.PlanOf(x).cids| == 2 && !Rotation.Unaddressed(x, 0) && !Rotation.Unaddressed(x, 1) && SecondSendsAgain(x)
  {
    hide Sender.Tick, Sender.PlanOf, Sender.Works, Pool.UsableSet, SecondSendsAgain;
    AgainPlan(Some("+1"), draws);
    AgainSends(Some("+1"), draws);
  }

  lemma AgainPlan(phone: Option<string>, draws: Sender.Draws)
    ensures var x := AgainScene(phone, draws);
      Pool.UsableSet(x.accounts, x.now, x.minDelay) == {1, 2} && Sender.Works(x) && Sender.PlanOf(x).cids == [1, 2]
  {
    hide Sender.Valid, Sender.Fits, Pool.Order, Pool.UsableSet, ById, Pool.Made;
    var x := AgainScene(phone, draws);
    assert x.accounts.Keys == {1, 2} && x.job.targets.Keys == {1, 2};
    AllUsable(x.accounts, Some(2));
    AllPlanned(x.job.targets, x.contacts);
    TwoById(1, 2);
  }

  lemma AgainSends(phone: Option<string>, draws: Sender.Draws)
    ensures SecondSendsAgain(AgainScene(phone, draws))
  {
    hide Sender.Tick, Sender.PlanOf, Sender.Works, Pool.UsableSet, Rotation.SendsAgain;
    var x := AgainScene(phone, draws);
    AgainPlan(phone, draws);
    Rotation.SameSenderByAnswers(x);
    assert !Rotation.Unaddressed(x, 1);
  }
}
