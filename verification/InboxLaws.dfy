/** Inbox laws: paging back through a thread loses and repeats nothing, and what an opt-out reply does and
    does not guarantee. */
module InboxLaws {
  import opened Core
  import opened Ordering
  import opened Models
  import opened Text
  import opened ContactBook
  import opened Inbox

  // ------------------------------------------------------------------------- paging ---

  ghost predicate IdsClimb(messages: seq<InboxMessage>) {
    forall i, j :: 0 <= i < j < |messages| ==> messages[i].id < messages[j].id
  }

  lemma {:induction false} ReversedAt(s: seq<InboxMessage>, k: nat)
    requires k < |s|
    ensures Reversed(s)[k] == s[|s| - 1 - k]
  {
    if k >= |s| - 1 {
    } else {
      ReversedAt(s[1..], k);
    }
  }

  lemma ReversedTwice(s: seq<InboxMessage>)
    ensures Reversed(Reversed(s)) == s
  {
    forall k | 0 <= k < |s| ensures Reversed(Reversed(s))[k] == s[k] {
      ReversedAt(Reversed(s), k);
      ReversedAt(s, |s| - 1 - k);
    }
  }

  /** A page is the newest part of what matches. */
  lemma PageIsNewest(messages: seq<InboxMessage>, conv: int, limit: nat, before: Option<int>)
    ensures var all := Matching(messages, conv, before);
      Page(messages, conv, limit, before) == if |all| <= limit then all else all[|all| - limit..]
  {
    var all := Matching(messages, conv, before);
    if |all| <= limit {
      ReversedTwice(all);
    } else {
      var page := Page(messages, conv, limit, before);
      forall k | 0 <= k < limit ensures page[k] == all[|all| - limit + k] {
        ReversedAt(Reversed(all)[..limit], k);
        ReversedAt(all, limit - 1 - k);
      }
      assert page == all[|all| - limit..];
    }
  }

  lemma FrontClimbs(messages: seq<InboxMessage>)
    requires IdsClimb(messages) && messages != []
    ensures IdsClimb(messages[..|messages| - 1])
    ensures var front, last := messages[..|messages| - 1], messages[|messages| - 1];
      forall i :: 0 <= i < |front| ==> front[i].id < last.id
  {
  }

  /** Everything older than `bound` matches whatever the bound. */
  lemma {:induction false} BoundDoesNotCut(messages: seq<InboxMessage>, conv: int, a: Option<int>, b: Option<int>)
    requires forall i :: 0 <= i < |messages| ==> Below(messages[i].id, a) && Below(messages[i].id, b)
    ensures Matching(messages, conv, a) == Matching(messages, conv, b)
  {
    if messages == [] {
    } else {
      BoundDoesNotCut(messages[..|messages| - 1], conv, a, b);
    }
  }

  lemma {:induction false} MatchingIsIn(messages: seq<InboxMessage>, conv: int, before: Option<int>, i: nat)
    requires i < |Matching(messages, conv, before)|
    ensures var m := Matching(messages, conv, before)[i];
      m.conversationId == conv && Below(m.id, before) && exists j :: 0 <= j < |messages| && messages[j] == m
  {
    var front := messages[..|messages| - 1];
    if i < |Matching(front, conv, before)| {
      MatchingIsIn(front, conv, before, i);
      var j :| 0 <= j < |front| && front[j] == Matching(front, conv, before)[i];
      assert messages[j] == front[j];
    } else {
      assert messages[|messages| - 1] == Matching(messages, conv, before)[i];
    }
  }

  /** What is older than the `i`-th matching message is what matches before it. */
  lemma {:induction false} CutAt(messages: seq<InboxMessage>, conv: int, before: Option<int>, i: nat)
    requires IdsClimb(messages) && i < |Matching(messages, conv, before)|
    ensures Matching(messages, conv, Some(Matching(messages, conv, before)[i].id))
        == Matching(messages, conv, before)[..i]
  {
    hide IdsClimb;
    var front, last := messages[..|messages| - 1], messages[|messages| - 1];
    var earlier := Matching(front, conv, before);
    FrontClimbs(messages);
    if i < |earlier| {
      CutAt(front, conv, before, i);
      MatchingIsIn(front, conv, before, i);
      assert Matching(messages, conv, before)[i] == earlier[i];
      assert Matching(messages, conv, before)[..i] == earlier[..i];
    } else {
      BoundDoesNotCut(front, conv, before, Some(last.id));
      assert (earlier + [last])[..i] == earlier;
    }
  }

  lemma {:induction false} OlderMatches(messages: seq<InboxMessage>, conv: int, id: int, i: nat)
    requires i < |messages| && messages[i].conversationId == conv && messages[i].id < id
    ensures Matching(messages, conv, Some(id)) != []
  {
    if i >= |messages| - 1 {
    } else {
      OlderMatches(messages[..|messages| - 1], conv, id, i);
    }
  }

  lemma HasOlderMeans(messages: seq<InboxMessage>, conv: int, page: seq<InboxMessage>)
    requires page != []
    ensures HasOlder(messages, conv, page) <==> Matching(messages, conv, Some(page[0].id)) != []
  {
    var older := Matching(messages, conv, Some(page[0].id));
    if older != [] {
      MatchingIsIn(messages, conv, Some(page[0].id), 0);
      var j :| 0 <= j < |messages| && messages[j] == older[0];
    }
    if HasOlder(messages, conv, page) {
      var i :| 0 <= i < |messages| && messages[i].conversationId == conv && messages[i].id < page[0].id;
      OlderMatches(messages, conv, page[0].id, i);
    }
  }

  /** A page and everything older than it are everything that matches. */
  lemma PageAndOlder(messages: seq<InboxMessage>, conv: int, limit: nat, before: Option<int>)
    requires IdsClimb(messages) && limit >= 1
    ensures var page, all := Page(messages, conv, limit, before), Matching(messages, conv, before);
      && (page == [] ==> all == [])
      && (page != [] ==>
            && Matching(messages, conv, Some(page[0].id)) + page == all
            && |Matching(messages, conv, Some(page[0].id))| < |all|
            && exists j :: 0 <= j < |messages| && messages[j] == page[0])
  {
    hide IdsClimb, Page;
    PageIsNewest(messages, conv, limit, before);
    var page, all := Page(messages, conv, limit, before), Matching(messages, conv, before);
    if page != [] {
      var i := |all| - |page|;
      assert page == all[i..] && page[0] == all[i];
      CutAt(messages, conv, before, i);
      MatchingIsIn(messages, conv, before, i);
      assert all[..i] + all[i..] == all;
    }
  }

  /** The store as of each request; messages only arrive. */
  type Stores = nat -> seq<InboxMessage>

  ghost predicate Growing(stores: Stores) {
    forall k: nat :: IdsClimb(stores(k)) && stores(k) <= stores(k + 1)
  }

  lemma GrowingAt(stores: Stores, k: nat)
    requires Growing(stores)
    ensures IdsClimb(stores(k)) && IdsClimb(stores(k + 1)) && stores(k) <= stores(k + 1)
  {
  }

  /** Messages that arrive later have larger ids, so they are never older than a known one. */
  lemma {:induction false} ArrivalsAreNewer(messages: seq<InboxMessage>, later: seq<InboxMessage>, conv: int, j: nat)
    requires IdsClimb(later) && messages <= later && j < |messages|
    ensures Matching(later, conv, Some(messages[j].id)) == Matching(messages, conv, Some(messages[j].id))
    decreases |later|
  {
    if |later| == |messages| {
      assert later == messages;
    } else {
      ArrivalsAreNewer(messages, later[..|later| - 1], conv, j);
    }
  }

  lemma NextMatches(stores: Stores, conv: int, limit: nat, k: nat, before: Option<int>)
    requires Growing(stores) && limit >= 1 && Page(stores(k), conv, limit, before) != []
    ensures var id := Page(stores(k), conv, limit, before)[0].id;
      && Matching(stores(k + 1), conv, Some(id)) == Matching(stores(k), conv, Some(id))
      && |Matching(stores(k + 1), conv, Some(id))| < |Matching(stores(k), conv, before)|
  {
    hide Growing, IdsClimb;
    GrowingAt(stores, k);
    PageAndOlder(stores(k), conv, limit, before);
    var page := Page(stores(k), conv, limit, before);
    var j :| 0 <= j < |stores(k)| && stores(k)[j] == page[0];
    ArrivalsAreNewer(stores(k), stores(k + 1), conv, j);
  }

  /** What a client has after loading pages from the `k`-th request on, oldest first: each page is asked
      for with any limit, and the next one before the first message of the last, while there is more. */
  ghost function Walk(stores: Stores, conv: int, limits: nat -> nat, k: nat, before: Option<int>): seq<InboxMessage>
    requires Growing(stores) && forall i :: limits(i) >= 1
    decreases |Matching(stores(k), conv, before)|
  {
    var page := Page(stores(k), conv, limits(k), before);
    if !HasOlder(stores(k), conv, page) then page
    else
      NextMatches(stores, conv, limits(k), k, before);
      Walk(stores, conv, limits, k + 1, Some(page[0].id)) + page
  }

  lemma {:induction false} WalkIsMatching(stores: Stores, conv: int, limits: nat -> nat, k: nat, before: Option<int>)
    requires Growing(stores) && forall i :: limits(i) >= 1
    ensures Walk(stores, conv, limits, k, before) == Matching(stores(k), conv, before)
    decreases |Matching(stores(k), conv, before)|
  {
    hide Growing, IdsClimb, HasOlder, Page;
    var page := Page(stores(k), conv, limits(k), before);
    GrowingAt(stores, k);
    PageAndOlder(stores(k), conv, limits(k), before);
    if page != [] {
      HasOlderMeans(stores(k), conv, page);
      if HasOlder(stores(k), conv, page) {
        NextMatches(stores, conv, limits(k), k, before);
        WalkIsMatching(stores, conv, limits, k + 1, Some(page[0].id));
      }
    } else {
      NoPageNoOlder(stores(k), conv);
    }
  }

  lemma NoPageNoOlder(messages: seq<InboxMessage>, conv: int)
    ensures !HasOlder(messages, conv, [])
  {
  }

  /** Paging back from the newest page, with any limits, ends and gives exactly the messages the thread had
      at the start, in order and each once, whatever arrives meanwhile. */
  lemma PagingLosesNothing(stores: Stores, conv: int, limits: nat -> nat)
    requires Growing(stores) && forall i :: limits(i) >= 1
    ensures Walk(stores, conv, limits, 0, None) == Thread(stores(0), conv)
  {
    WalkIsMatching(stores, conv, limits, 0, None);
  }

  // ------------------------------------------------------------------------ opt-outs ---

  /** An opt-out reply makes exactly its sender's contact unreachable, if the sender is a known contact:
      found by Telegram id, else by username. Nobody else changes. */
  lemma OptOutReplyExact(rows: Contacts, peerId: Option<int>, peerUsername: Option<string>, text: Option<string>,
                         c: int)
    requires IsOptOut(text)
    ensures var sender := FindByPeer(rows, peerId, peerUsername);
      Reachable(BookAfter(rows, sender, text), c) <==> Reachable(rows, c) && sender != One(c)
  {
    hide FindByPeer, IsOptOut;
  }

  /** Whether a contact can be written to after its peer was saved does not depend on the conversation's
      status: a new one unless consent was refused, a known one if it had not opted out and has consent. */
  lemma SavedPeerReachable(rows: Contacts, next: int, conv: Conversation, d: PeerDetails, pick: int)
    requires SavePeer(rows, next, conv, d, pick).Stored? && next !in rows
    ensures var r := SavePeer(rows, next, conv, d, pick);
      Reachable(r.rows, r.id) <==>
        (if r.id in rows then !rows[r.id].optedOut && (if d.consent.Some? then d.consent.value else rows[r.id].consent)
         else d.consent != Some(false))
  {
    hide NormalizePhone, NormalizeUsername, FindConflict, PeerUsername, SaveSubject;
  }

  const NO_DETAILS := PeerDetails(None, None, None, None, None, None)

  /** The finding: STOP from a peer that is no contact is forgotten when the peer is saved. The new contact
      carries the stage `opted_out`, but it is not flagged and counts as consenting, so it is written to. */
  lemma StopFromStrangerIsForgotten()
    ensures IsOptOut(Some("STOP"))
    ensures FindByPeer(map[], Some(7), None).Nobody?
    ensures var conv := HeardIn(NewConversation(1, Some(7), None, None, None), None, Some("STOP"));
      var r := SavePeer(map[], 1, conv, NO_DETAILS, 0);
      conv.status == At(OptedOut) && r.Stored? && r.rows[r.id].stage == OptedOut && Reachable(r.rows, r.id)
  {
    StopIsOptOut();
    hide IsOptOut;
    var conv := HeardIn(NewConversation(1, Some(7), None, None, None), None, Some("STOP"));
    assert ByTelegramId(map[], 7) == {};
    assert TypedMatches(map[], None, None) == {};
    assert FindByPeer(map[], Some(7), conv.peerUsername).Nobody?;
  }

  lemma StopIsOptOut()
    ensures IsOptOut(Some("STOP"))
  {
    assert Strip("STOP") == "STOP";
    assert Lower("STOP") == [LowerChar('S')] + Lower("TOP");
    assert Lower("TOP") == [LowerChar('T')] + Lower("OP");
    assert Lower("OP") == [LowerChar('O')] + Lower("P");
    assert Lower("P") == [LowerChar('P')] + Lower("");
    assert Lower("STOP") == "stop";
  }
}
