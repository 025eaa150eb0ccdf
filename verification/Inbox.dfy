/** The inbox: paging through a thread, recording incoming messages with their opt-outs, and statuses. */
module Inbox {
  import opened Core
  import opened Ordering
  import opened Models
  import opened Text
  import opened ContactBook

  // ------------------------------------------------------------------------- paging ---

  predicate Below(id: int, before: Option<int>) {
    before.None? || id < before.value
  }

  /** The messages of a conversation with an id below `before`, by id. */
  function Matching(messages: seq<InboxMessage>, conv: int, before: Option<int>): (r: seq<InboxMessage>)
    ensures |r| <= |messages|
  {
    if messages == [] then []
    else
      var front, last := Matching(messages[..|messages| - 1], conv, before), messages[|messages| - 1];
      if last.conversationId == conv && Below(last.id, before) then front + [last] else front
  }

  function Reversed(s: seq<InboxMessage>): (r: seq<InboxMessage>)
    ensures |r| == |s|
  {
    if s == [] then [] else Reversed(s[1..]) + [s[0]]
  }

  function Take(s: seq<InboxMessage>, limit: nat): seq<InboxMessage> {
    if |s| <= limit then s else s[..limit]
  }

  /** `get_thread` with a limit: newest first, cut, and flipped back. */
  function Page(messages: seq<InboxMessage>, conv: int, limit: nat, before: Option<int>): seq<InboxMessage> {
    Reversed(Take(Reversed(Matching(messages, conv, before)), limit))
  }

  /** The whole thread. */
  function Thread(messages: seq<InboxMessage>, conv: int): seq<InboxMessage> {
    Matching(messages, conv, None)
  }

  /** `has_older_messages`, for a page's first message. */
  predicate HasOlder(messages: seq<InboxMessage>, conv: int, page: seq<InboxMessage>) {
    page != [] && exists i :: 0 <= i < |messages| && messages[i].conversationId == conv && messages[i].id < page[0].id
  }

  // ------------------------------------------------------------------- conversations ---

  const OPT_OUT_WORDS := {"stop", "unsubscribe", "opt out", "optout", "unsub", "cancel"}

  /** `is_opt_out`: one of the words, or anything that begins with "stop". */
  predicate IsOptOut(text: Option<string>) {
    text.Some? && (var t := Lower(Strip(text.value)); t in OPT_OUT_WORDS || "stop" <= t)
  }

  type Conversations = map<int, Conversation>

  /** The conversations a lookup may return: by peer, else by contact, else the account's anonymous one. */
  function Candidates(convs: Conversations, accountId: int, peerId: Option<int>, contactId: Option<int>): set<int> {
    set c | c in convs && convs[c].accountId == accountId
            && if peerId.Some? then convs[c].peerId == peerId
               else if contactId.Some? then convs[c].contactId == contactId
               else convs[c].peerId.None? && convs[c].contactId.None?
  }

  /** An existing conversation learns what it did not know about its peer. */
  function Backfilled(c: Conversation, peerName: Option<string>, peerUsername: Option<string>,
                      contactId: Option<int>): Conversation {
    c.(contactId := if contactId.Some? && contactId.value != 0 && c.contactId.None? then contactId else c.contactId,
       peerUsername := if Given(peerUsername) && !Given(c.peerUsername) then PeerUsername(peerUsername)
                       else c.peerUsername,
       peerName := if Given(peerName) && !Given(c.peerName) then peerName else c.peerName)
  }

  /** The conversation a message belongs to; `pick` stands for whichever match the query returns first. */
  function Chosen(candidates: set<int>, pick: int): Option<int> {
    if pick in candidates then Some(pick)
    else if |candidates| > 0 then NonEmptySet(candidates); Some(First(candidates, Self(candidates)))
    else None
  }

  function NewConversation(accountId: int, peerId: Option<int>, peerName: Option<string>, peerUsername: Option<string>,
                           contactId: Option<int>): Conversation {
    Conversation(accountId, peerId, peerName, PeerUsername(peerUsername), contactId, At(NewLead), 0)
  }

  method GetOrCreateConversation(db: Database, accountId: int, peerId: Option<int>, peerName: Option<string>,
                                 peerUsername: Option<string>, contactId: Option<int>, pick: int)
    returns (id: int)
    modifies db`conversations, db`nextConversation
    ensures var chosen := Chosen(Candidates(old(db.conversations), accountId, peerId, contactId), pick);
      if chosen.Some? then
        id == chosen.value && id in old(db.conversations) && db.nextConversation == old(db.nextConversation)
        && db.conversations
           == old(db.conversations)[id := Backfilled(old(db.conversations)[id], peerName, peerUsername, contactId)]
      else
        id == old(db.nextConversation) && db.nextConversation == id + 1
        && db.conversations
           == old(db.conversations)[id := NewConversation(accountId, peerId, peerName, peerUsername, contactId)]
  {
    var chosen := Chosen(Candidates(db.conversations, accountId, peerId, contactId), pick);
    if chosen.None? {
      id := db.nextConversation;
      db.conversations := db.conversations[id := NewConversation(accountId, peerId, peerName, peerUsername, contactId)];
      db.nextConversation := id + 1;
    } else {
      id := chosen.value;
      var c := db.conversations[id];
      if contactId.Some? && contactId.value != 0 && c.contactId.None? {
        c := c.(contactId := contactId);
      }
      if Given(peerUsername) && !Given(c.peerUsername) {
        c := c.(peerUsername := PeerUsername(peerUsername));
      }
      if Given(peerName) && !Given(c.peerName) {
        c := c.(peerName := peerName);
      }
      db.conversations := db.conversations[id := c];
    }
  }

  /** A contact after one of its messages came in: an opt-out is recorded, a fresh lead has replied. */
  function Heard(c: Contact, text: Option<string>): Contact {
    if IsOptOut(text) then OptedOutNow(c)
    else if c.stage.NewLead? || c.stage.Contacted? then c.(stage := Replied)
    else c
  }

  /** A conversation after a message came in. */
  function HeardIn(conv: Conversation, contact: Option<Contact>, text: Option<string>): Conversation {
    var c := conv.(unread := conv.unread + 1);
    if IsOptOut(text) then c.(status := At(OptedOut))
    else if contact.Some? && (contact.value.stage.NewLead? || contact.value.stage.Contacted?)
         then c.(status := At(Replied))
    else c
  }

  /** The book after a message from a peer: at most the peer's own contact changes. */
  function BookAfter(rows: Contacts, sender: Lookup, text: Option<string>): Contacts {
    if sender.One? && sender.id in rows then rows[sender.id := Heard(rows[sender.id], text)] else rows
  }

  /** `display_label`. */
  function Label(id: int, c: Contact): string {
    if Given(c.name) then c.name.value
    else if Given(c.username) then "@" + c.username.value
    else if Given(c.phone) then c.phone.value
    else "#" + Numeral(id)
  }

  function NameFor(rows: Contacts, sender: Lookup, peerName: Option<string>): Option<string> {
    if Given(peerName) then peerName
    else if sender.One? && sender.id in rows then Some(Label(sender.id, rows[sender.id]))
    else None
  }

  /** What a message does to its conversation and its sender's contact. */
  method HearMessage(db: Database, convId: int, contactId: Option<int>, text: Option<string>)
    requires convId in db.conversations && (contactId.Some? ==> contactId.value in db.contacts)
    modifies db`contacts, db`conversations
    ensures var c := old(db.contacts); var contact := if contactId.Some? then Some(c[contactId.value]) else None;
      && db.conversations == old(db.conversations)[convId := HeardIn(old(db.conversations)[convId], contact, text)]
      && db.contacts == if contactId.Some? then c[contactId.value := Heard(c[contactId.value], text)] else c
  {
    var conversation := db.conversations[convId];
    conversation := conversation.(unread := conversation.unread + 1);
    // An opt-out reply is honoured at once.
    if IsOptOut(text) {
      conversation := conversation.(status := At(OptedOut));
      if contactId.Some? {
        db.contacts := db.contacts[contactId.value := db.contacts[contactId.value].(optedOut := true,
                                                                                    stage := OptedOut)];
      }
    } else if contactId.Some? {
      var contact := db.contacts[contactId.value];
      if contact.stage.NewLead? || contact.stage.Contacted? {
        contact := contact.(stage := Replied);
        conversation := conversation.(status := At(Replied));
      }
      db.contacts := db.contacts[contactId.value := contact];
    }
    db.conversations := db.conversations[convId := conversation];
  }

  /** Records a message from a peer; a lookup that finds several contacts raises and stores nothing. */
  method RecordIncoming(db: Database, accountId: int, peerId: Option<int>, peerName: Option<string>,
                        peerUsername: Option<string>, text: Option<string>, pick: int)
    returns (convId: int, raised: bool)
    modifies db`contacts, db`conversations, db`nextConversation, db`messages, db`nextMessage
    ensures var sender := FindByPeer(old(db.contacts), peerId, peerUsername);
      var contactId := if sender.One? then Some(sender.id) else None;
      var name := NameFor(old(db.contacts), sender, peerName);
      var chosen := Chosen(Candidates(old(db.conversations), accountId, peerId, contactId), pick);
      && raised == sender.Several?
      && db.contacts == BookAfter(old(db.contacts), sender, text)
      && (raised ==> db.conversations == old(db.conversations) && db.messages == old(db.messages)
                     && db.nextConversation == old(db.nextConversation) && db.nextMessage == old(db.nextMessage))
      && (!raised ==>
            && convId == (if chosen.Some? then chosen.value else old(db.nextConversation))
            && db.nextConversation == old(db.nextConversation) + (if chosen.Some? then 0 else 1)
            && db.messages == old(db.messages) + [InboxMessage(old(db.nextMessage), convId, true, text)]
            && db.nextMessage == old(db.nextMessage) + 1
            && (chosen.Some? ==> chosen.value in old(db.conversations))
            && var before := if chosen.Some?
                             then Backfilled(old(db.conversations)[chosen.value], name, peerUsername, contactId)
                             else NewConversation(accountId, peerId, name, peerUsername, contactId);
               db.conversations == old(db.conversations)[convId :=
                 HeardIn(before, if sender.One? then Some(old(db.contacts)[sender.id]) else None, text)])
  {
    hide FindByPeer, Candidates, Chosen, Backfilled, IsOptOut, PeerUsername, HeardIn, Heard;
    var sender := FindByPeer(db.contacts, peerId, peerUsername);
    convId, raised := 0, sender.Several?;
    if raised {
      return;
    }
    var contactId := if sender.One? then Some(sender.id) else None;
    convId := GetOrCreateConversation(db, accountId, peerId, NameFor(db.contacts, sender, peerName), peerUsername,
                                      contactId, pick);
    db.messages := db.messages + [InboxMessage(db.nextMessage, convId, true, text)];
    db.nextMessage := db.nextMessage + 1;
    HearMessage(db, convId, if sender.One? then Some(sender.id) else None, text);
  }

  method MarkRead(db: Database, convId: int)
    requires convId in db.conversations
    modifies db`conversations
    ensures db.conversations == old(db.conversations)[convId := old(db.conversations[convId]).(unread := 0)]
  {
    db.conversations := db.conversations[convId := db.conversations[convId].(unread := 0)];
  }

  /** Setting a status moves the linked contact's stage along, except for `blocked`. */
  method SetStatus(db: Database, convId: int, status: ConversationStatus)
    requires convId in db.conversations
    modifies db`conversations, db`contacts
    ensures var conv := old(db.conversations[convId]);
      && db.conversations == old(db.conversations)[convId := conv.(status := status)]
      && db.contacts ==
         if conv.contactId.Some? && conv.contactId.value != 0 && status.At? && conv.contactId.value in old(db.contacts)
         then old(db.contacts)[conv.contactId.value := Staged(old(db.contacts)[conv.contactId.value], status.stage)]
         else old(db.contacts)
  {
    var conversation := db.conversations[convId].(status := status);
    db.conversations := db.conversations[convId := conversation];
    if conversation.contactId.Some? && conversation.contactId.value != 0 && !status.Blocked? {
      var id := conversation.contactId.value;
      if id in db.contacts {
        var contact := db.contacts[id].(stage := status.stage);
        if status.stage.OptedOut? {
          contact := contact.(optedOut := true);
        }
        db.contacts := db.contacts[id := contact];
      }
    }
  }
}
