/** The rows the services work on, and the database session that holds them. */
module Models {
  import opened Core

  // ------------------------------------------------------------------- accounts ---

  datatype AccountStatus = Active | Warming | Quarantined | Banned | LoggedOut

  datatype Account = Account(
    status: AccountStatus, hasSession: bool, phone: Option<string>, proxyId: Option<int>,
    dailyCap: int, actionsToday: int, lastActionAt: Option<Time>,
    warmupStage: int, warmupStartedAt: Option<Time>)

  type Accounts = map<int, Account>

  datatype Health = HealthOk | Dead | Unknown

  datatype Proxy = Proxy(host: string, port: int, isActive: bool, health: Health, assignedAccountId: Option<int>)

  type Proxies = map<int, Proxy>

  // ------------------------------------------------------------------- contacts ---

  datatype LeadType = PhoneLead | UsernameLead

  datatype Stage = NewLead | Contacted | Replied | JoinedIn | Customer | OptedOut

  datatype Resolution = Unresolved | Resolved | NoTelegram | Unresolvable

  datatype Contact = Contact(
    name: Option<string>, leadType: LeadType, phone: Option<string>, username: Option<string>,
    telegramUserId: Option<int>, resolution: Resolution, source: Option<string>, notes: Option<string>,
    stage: Stage, consent: bool, optedOut: bool, tags: set<string>, lastContactedAt: Option<Time>)

  type Contacts = map<int, Contact>

  /** The check before every sender and campaign action. */
  predicate Reachable(contacts: Contacts, id: int) {
    id in contacts && contacts[id].consent && !contacts[id].optedOut
  }

  // ---------------------------------------------------------- sender and campaigns ---

  datatype JobStatus = Draft | Running | Paused | Done

  datatype TargetState = Queued | Sent | Joined | Answered | Failed | Skipped

  datatype SendTarget = SendTarget(
    contactId: int, state: TargetState, accountId: Option<int>, sentAt: Option<Time>, body: Option<string>)

  datatype SendJob = SendJob(
    template: string, includeLink: bool, linkUrl: Option<string>, suppressLinkFirst: bool,
    activeStart: int, activeEnd: int, status: JobStatus, lastAccountId: Option<int>, startedAt: Option<Time>,
    targets: map<int, SendTarget>)

  datatype Action = Message | Invite | Add

  datatype Segment = Segment(
    source: Option<string>, stage: Option<Stage>, tag: Option<string>, excludeInDestination: Option<int>)

  datatype DripStep = DripStep(offsetHours: int, variantGroup: Option<string>)

  datatype CampaignTarget = CampaignTarget(
    contactId: int, step: nat, templateId: Option<int>, scheduledAt: Time,
    state: TargetState, accountId: Option<int>, sentAt: Option<Time>)

  datatype Campaign = Campaign(
    action: Action, destinationId: Option<int>, segment: Segment, steps: seq<DripStep>, abTest: bool,
    status: JobStatus, lastAccountId: Option<int>, startedAt: Option<Time>,
    targets: map<int, CampaignTarget>)

  // --------------------------------------------------------------- destinations ---

  datatype MemberState = Pending | Added | Invited | InGroup | AddFailed

  datatype Membership = Membership(contactId: int, state: MemberState, accountId: Option<int>)

  /** `resolved`: the group's Telegram entity id is known. */
  datatype Destination = Destination(resolved: bool, memberships: map<int, Membership>)

  // --------------------------------------------------------------------- warmup ---

  /** `maxActions` may be missing from a stage. */
  datatype WarmupStage = WarmupStage(days: int, maxActions: Option<int>)

  datatype ParticipantStatus = Waiting | Ongoing | OnHold | Finished

  datatype Participant = Participant(
    accountId: int, stage: nat, stageStartedAt: Option<Time>, actionsToday: nat, dayKey: Option<int>,
    lastActionAt: Option<Time>, joined: seq<string>, status: ParticipantStatus)

  datatype WarmupRun = WarmupRun(
    status: JobStatus, stages: seq<WarmupStage>, groups: seq<string>, messages: seq<string>,
    partners: seq<string>, minDelaySeconds: int, startedAt: Option<Time>, participants: map<int, Participant>)

  // ---------------------------------------------------------------------- inbox ---

  /** A conversation's status is a contact stage or `blocked`. */
  datatype ConversationStatus = At(stage: Stage) | Blocked

  datatype Conversation = Conversation(
    accountId: int, peerId: Option<int>, peerName: Option<string>, peerUsername: Option<string>,
    contactId: Option<int>, status: ConversationStatus, unread: nat)

  datatype InboxMessage = InboxMessage(id: int, conversationId: int, incoming: bool, body: Option<string>)

  // -------------------------------------------------------------------- session ---

  /** The tables. Ids are handed out in ascending order, one counter per table. */
  class Database {
    var accounts: Accounts
    var proxies: Proxies
    var contacts: Contacts
    var nextContact: int
    var jobs: map<int, SendJob>
    var campaigns: map<int, Campaign>
    var nextSendTarget: int
    var nextCampaignTarget: int
    var destinations: map<int, Destination>
    var nextMembership: int
    var runs: map<int, WarmupRun>
    var nextParticipant: int
    var conversations: map<int, Conversation>
    var nextConversation: int
    var messages: seq<InboxMessage>
    var nextMessage: int
    var nextProxy: int

    constructor ()
      ensures accounts == map[] && proxies == map[] && contacts == map[] && jobs == map[] && campaigns == map[]
      ensures destinations == map[] && runs == map[] && conversations == map[] && messages == []
    {
      accounts, proxies, contacts, jobs, campaigns := map[], map[], map[], map[], map[];
      destinations, runs, conversations, messages := map[], map[], map[], [];
      nextContact, nextSendTarget, nextCampaignTarget, nextMembership, nextParticipant := 1, 1, 1, 1, 1;
      nextConversation, nextMessage, nextProxy := 1, 1, 1;
    }
  }
}
