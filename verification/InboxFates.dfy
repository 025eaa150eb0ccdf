/** What an incoming message and an operator's status do, field by field: to the conversation, the contact and the
    names shown. */
module InboxFates {
  import opened Core
  import opened Models
  import opened Text
  import opened ContactBook
  import opened Inbox

  /** An opt-out is one of six words, or begins with stop, after strip and lower. */
  lemma OptOutIs(text: Option<string>)
    ensures IsOptOut(text) <==>
      text.Some? && var t := Lower(Strip(text.value));
        || (|t| >= 4 && t[0] == 's' && t[1] == 't' && t[2] == 'o' && t[3] == 'p')
        || t == "unsubscribe" || t == "opt out" || t == "optout" || t == "unsub" || t == "cancel"
  {
    if text.Some? {
      var t := Lower(Strip(text.value));
      assert "stop" <= t <==> |t| >= 4 && t[..4] == "stop";
      if |t| >= 4 && t[0] == 's' && t[1] == 't' && t[2] == 'o' && t[3] == 'p' {
        assert t[..4] == "stop";
      }
    }
  }

  /** The sender and the conversation after a message: an opt-out is flagged on both; a new or contacted sender has
      replied; in every case one more message is unread. Only the sender's row changes. */
  lemma MessageIs(rows: Contacts, sender: Lookup, conv: Conversation, text: Option<string>, c: int)
    requires sender.One? ==> sender.id in rows
    ensures var contact := if sender.One? then Some(rows[sender.id]) else None;
      var later, conv' := BookAfter(rows, sender, text), HeardIn(conv, contact, text);
      var replies := sender.One? && (rows[sender.id].stage == NewLead || rows[sender.id].stage == Contacted);
      && later.Keys == rows.Keys
      && (c in rows && sender != One(c) ==> later[c] == rows[c])
      && (sender.One? ==>
          later[sender.id] == if IsOptOut(text) then rows[sender.id].(optedOut := true, stage := OptedOut)
                                              else if replies then rows[sender.id].(stage := Replied)
                                              else rows[sender.id])
      && conv' == conv.(unread := conv.unread + 1,
                        status := if IsOptOut(text) then At(OptedOut) else if replies then At(Replied) else conv.status)
  {
    hide IsOptOut;
  }

  /** The conversations a lookup may return: the account's with this peer; without a peer, those with the contact;
      without either, those with neither. */
  ghost predicate MayBe(convs: Conversations, c: int, accountId: int, peerId: Option<int>, contactId: Option<int>) {
    && c in convs && convs[c].accountId == accountId
    && (peerId.Some? ==> convs[c].peerId == peerId)
    && (peerId.None? && contactId.Some? ==> convs[c].contactId == contactId)
    && (peerId.None? && contactId.None? ==> convs[c].peerId.None? && convs[c].contactId.None?)
  }

  lemma ChosenIs(convs: Conversations, accountId: int, peerId: Option<int>, contactId: Option<int>, pick: int)
    ensures var r := Chosen(Candidates(convs, accountId, peerId, contactId), pick);
      && (r.None? <==> forall c :: !MayBe(convs, c, accountId, peerId, contactId))
      && (r.Some? ==> MayBe(convs, r.value, accountId, peerId, contactId))
      && (MayBe(convs, pick, accountId, peerId, contactId) ==> r == Some(pick))
  {
    var candidates := Candidates(convs, accountId, peerId, contactId);
    assert forall c :: c in candidates <==> MayBe(convs, c, accountId, peerId, contactId);
    if |candidates| == 0 {
      assert candidates == {};
    }
  }

  /** What a conversation learns: only what it did not know. */
  lemma LearnsOnlyNew(c: Conversation, name: Option<string>, username: Option<string>, contactId: Option<int>)
    ensures var d := Backfilled(c, name, username, contactId);
      && d == c.(contactId := d.contactId, peerName := d.peerName, peerUsername := d.peerUsername)
      && (c.contactId.Some? ==> d.contactId == c.contactId)
      && (c.contactId.None? ==> d.contactId == if contactId == Some(0) then None else contactId)
      && (c.peerName.Some? && c.peerName.value != "" ==> d.peerName == c.peerName)
      && (!(c.peerName.Some? && c.peerName.value != "") ==>
            d.peerName == if name.Some? && name.value != "" then name else c.peerName)
      && (c.peerUsername.Some? && c.peerUsername.value != "" ==> d.peerUsername == c.peerUsername)
      && (!(c.peerUsername.Some? && c.peerUsername.value != "") ==>
            d.peerUsername == if username.Some? && username.value != "" then PeerUsername(username) else c.peerUsername)
  {
    hide PeerUsername;
  }

  /** A new conversation knows what the message told, and has nothing unread yet. */
  lemma NewIs(accountId: int, peerId: Option<int>, name: Option<string>, username: Option<string>,
              contactId: Option<int>)
    ensures NewConversation(accountId, peerId, name, username, contactId)
         == Conversation(accountId, peerId, name, PeerUsername(username), contactId, At(NewLead), 0)
  {
  }

  /** The name shown: the peer's; else the contact's name, username, phone or number, whichever comes first. */
  lemma NameIs(rows: Contacts, sender: Lookup, peerName: Option<string>)
    requires sender.One? ==> sender.id in rows
    ensures var r := NameFor(rows, sender, peerName);
      if peerName.Some? && peerName.value != "" then r == peerName
      else if !sender.One? then r.None?
      else
        var c := rows[sender.id];
        var named, usernamed, phoned :=
          c.name.Some? && c.name.value != "", c.username.Some? && c.username.value != "",
          c.phone.Some? && c.phone.value != "";
        && r.Some?
        && (named ==> r == c.name)
        && (!named && usernamed ==> r.value == ['@'] + c.username.value)
        && (!named && !usernamed && phoned ==> r == c.phone)
        && (!named && !usernamed && !phoned ==> r.value == ['#'] + Numeral(sender.id))
  {
  }
}
