/** Who a first start is for and what it schedules, in terms of the fields of contacts, segment and steps. */
module Segments {
  import opened Core
  import opened Ordering
  import opened Models
  import opened Campaigns
  import CampaignLaws

  /** The contact has joined the destination: added, invited or already in it. */
  ghost predicate HasJoined(d: Destination, c: int) {
    exists m :: m in d.memberships && d.memberships[m].contactId == c
                && d.memberships[m].state in {Added, Invited, InGroup}
  }

  /** The contact consents and passes every filter of the segment that is given. */
  ghost predicate Chosen(contacts: Contacts, segment: Segment, destinations: map<int, Destination>, c: int) {
    && c in contacts && contacts[c].consent && !contacts[c].optedOut
    && (segment.source.None? || segment.source == Some("") || contacts[c].source == segment.source)
    && (segment.stage.None? || contacts[c].stage == segment.stage.value)
    && (segment.tag.None? || segment.tag == Some("") || segment.tag.value in contacts[c].tags)
    && (segment.excludeInDestination.None? || segment.excludeInDestination.value !in destinations
        || !HasJoined(destinations[segment.excludeInDestination.value], c))
  }

  lemma SegmentedAre(contacts: Contacts, segment: Segment, destinations: map<int, Destination>, c: int)
    ensures c in Segmented(contacts, segment, Already(destinations, segment))
       <==> Chosen(contacts, segment, destinations, c)
  {
    if segment.excludeInDestination.Some? && segment.excludeInDestination.value in destinations {
      JoinedAre(destinations[segment.excludeInDestination.value], c);
    }
    hide InDestination, HasJoined;
  }

  lemma JoinedAre(d: Destination, c: int)
    ensures c in InDestination(d) <==> HasJoined(d, c)
  {
  }

  /** A campaign without steps has one, at its start. */
  ghost function StepCount(campaign: Campaign): nat {
    if campaign.steps == [] then 1 else |campaign.steps|
  }

  ghost function OffsetOf(campaign: Campaign, s: nat): int {
    if s < |campaign.steps| then campaign.steps[s].offsetHours else 0
  }

  /** The templates a step chooses from. */
  ghost function GroupOf(campaign: Campaign, variants: Variants, s: nat): seq<int> {
    if s < |campaign.steps| && campaign.steps[s].variantGroup.Some? && campaign.steps[s].variantGroup != Some("")
       && campaign.steps[s].variantGroup.value in variants
    then variants[campaign.steps[s].variantGroup.value] else []
  }

  /** The row of a contact and step: queued, due the step's hours after the start, with the group's template the
      contact's id picks under A/B, and else its first. */
  ghost predicate Scheduled(campaign: Campaign, variants: Variants, now: Time, row: CampaignTarget) {
    var group := GroupOf(campaign, variants, row.step);
    && row.step < StepCount(campaign)
    && row.scheduledAt == now + OffsetOf(campaign, row.step) * 3_600_000_000
    && row.templateId == (if group == [] then None
                          else if campaign.abTest then Some(group[row.contactId % |group|]) else Some(group[0]))
    && row.state.Queued? && row.accountId.None? && row.sentAt.None?
  }

  lemma StepsAre(campaign: Campaign)
    ensures |Steps(campaign)| == StepCount(campaign)
    ensures forall s :: 0 <= s < |Steps(campaign)| ==> Steps(campaign)[s].offsetHours == OffsetOf(campaign, s)
  {
  }

  lemma TargetIs(campaign: Campaign, variants: Variants, now: Time, s: nat, c: int)
    requires s < |Steps(campaign)|
    ensures Scheduled(campaign, variants, now, TargetFor(campaign, variants, now, s, c))
    ensures TargetFor(campaign, variants, now, s, c).contactId == c
      && TargetFor(campaign, variants, now, s, c).step == s
  {
    StepsAre(campaign);
  }

  /** Some row is for the contact and the step. */
  ghost predicate HasRow(targets: Targets, c: int, s: nat) {
    exists t :: t in targets && targets[t].contactId == c && targets[t].step == s
  }

  /** A first start, exactly: a contact has a row for a step if and only if it is chosen and the campaign has the step;
      every row is queued for its own hour with its own template; and the campaign is running from now. */
  lemma FirstStartExact(campaign: Campaign, contacts: Contacts, destinations: map<int, Destination>, variants: Variants,
                        now: Time, next: int, c: int, s: nat)
    requires campaign.startedAt.None? && campaign.targets == map[]
    ensures var r := Started(campaign, contacts, Already(destinations, campaign.segment), variants, now, next);
      && (HasRow(r.targets, c, s) <==> Chosen(contacts, campaign.segment, destinations, c) && s < StepCount(campaign))
      && (forall t :: t in r.targets ==> Scheduled(campaign, variants, now, r.targets[t]))
      && r == campaign.(status := Running, startedAt := Some(now), targets := r.targets)
  {
    hide Started, Segmented, Already, TargetFor, Chosen, Scheduled, Materialized;
    var already := Already(destinations, campaign.segment);
    var r := Started(campaign, contacts, already, variants, now, next);
    StepsAre(campaign);
    SegmentedAre(contacts, campaign.segment, destinations, c);
    if Chosen(contacts, campaign.segment, destinations, c) && s < StepCount(campaign) {
      var t := CampaignLaws.FirstStartReachesAll(campaign, contacts, already, variants, now, next, s, c);
      TargetIs(campaign, variants, now, s, c);
    }
    forall t | t in r.targets
      ensures Scheduled(campaign, variants, now, r.targets[t]) && r.targets[t].step < StepCount(campaign)
      ensures r.targets[t].contactId in Segmented(contacts, campaign.segment, already)
    {
      CampaignLaws.FirstStartOnlyThese(campaign, contacts, already, variants, now, next, t);
      TargetIs(campaign, variants, now, r.targets[t].step, r.targets[t].contactId);
    }
    CampaignLaws.FirstStartTargets(campaign, contacts, already, variants, now, next);
  }

  /** A later start changes the status only. */
  lemma LaterStart(campaign: Campaign, contacts: Contacts, already: set<int>, variants: Variants, now: Time, next: int)
    requires campaign.startedAt.Some?
    ensures Started(campaign, contacts, already, variants, now, next) == campaign.(status := Running)
  {
  }
}
