/**
 * The pipeline workflow engine that main.py, web/routes.py and tests/test_workflow.py call:
 * next actions, stage transitions, the follow-up queue, staleness, the today queue and the
 * pipeline summary. Its rule tables are an injected configuration; `WellFormed` says what the
 * tests pin about them.
 */
module Workflow {
  import opened Wrappers
  import opened Config
  import opened Text
  import opened Values
  import opened Tables
  import opened Activity

  /** `calculate_next_action(stage)`: the action text and how many days out it is due. */
  datatype NextAction = NextAction(text: string, days: int)

  /**
   * The engine's rules: the next-action table, the text of a Stage Change entry for
   * (new stage, note), and the follow-up label for (days since Day 0, Day 3 sent, Day 7 sent).
   */
  datatype EngineConfig = EngineConfig(
    nextActions: map<string, NextAction>,
    describe: (string, Option<string>) -> string,
    cadence: (int, bool, bool) -> Option<string>)

  datatype EngineError = NotFound | InvalidStage | InvalidThreshold

  /**
   * What tests/test_workflow.py asserts of the rules, with the documented cadence: Day 7 is due
   * a week after Day 0 whether or not Day 3 was sent, and a contact with both follow-ups sent is
   * never due again.
   */
  ghost predicate WellFormed(cfg: EngineConfig) {
    && (forall s :: s in StageOrder && s != Terminal ==>
          s in cfg.nextActions && cfg.nextActions[s].text != [] && cfg.nextActions[s].days > 0)
    && (forall stage, note :: Contains(cfg.describe(stage, note), stage))
    && cfg.cadence(3, false, false).Some? && Contains(cfg.cadence(3, false, false).value, "Day 3")
    && (forall day3Sent :: cfg.cadence(7, day3Sent, false).Some? && Contains(cfg.cadence(7, day3Sent, false).value, "Day 7"))
    && cfg.cadence(0, false, false).None?
    && (forall daysSince :: cfg.cadence(daysSince, true, true).None?)
  }

  /** `calculate_next_action`: the stage's entry in the table; a stage without one is invalid input. */
  function CalculateNextAction(cfg: EngineConfig, stage: string): (r: Result<NextAction, EngineError>)
    ensures r.Ok? <==> stage in cfg.nextActions
    ensures r.Err? ==> r.error == InvalidStage
    ensures WellFormed(cfg) && IsStage(stage) && stage != Terminal ==> r.Ok? && r.value.text != [] && r.value.days > 0
  {
    if stage in cfg.nextActions then Ok(cfg.nextActions[stage]) else Err(InvalidStage)
  }

  /** Every stage but the terminal one has non-empty action text and a positive day count. */
  lemma NextActionAllStages(cfg: EngineConfig)
    requires WellFormed(cfg)
    ensures forall i :: 0 <= i < |StageOrder| && StageOrder[i] != Terminal ==>
              var r := CalculateNextAction(cfg, StageOrder[i]);
              r.Ok? && |r.value.text| > 0 && r.value.days > 0
  {
    forall i | 0 <= i < |StageOrder| && StageOrder[i] != Terminal
      ensures CalculateNextAction(cfg, StageOrder[i]).Ok?
    {
      assert StageOrder[i] in StageOrder;
    }
  }

  // ---------------------------------------------------------------------------
  // Stage transitions
  // ---------------------------------------------------------------------------

  /**
   * The opportunity after `advance_stage(new_stage)` on `today`: the new stage; `date_applied`
   * set on first reaching "Applied" or later and never changed once set; `date_closed`
   * stamped with today on every move to the terminal stage; the next action recomputed for a
   * non-terminal stage and left as it was for the terminal one.
   */
  function Advanced(o: Opportunity, newStage: string, today: int, cfg: EngineConfig): (r: Opportunity)
    ensures r.id == o.id && r.stage == newStage && r.updatedAt == today
    ensures o.dateApplied.Some? ==> r.dateApplied == o.dateApplied
    ensures o.dateApplied.None? ==> r.dateApplied == (if AppliedOrLater(newStage) then Some(today) else None)
    ensures r.dateClosed == (if newStage == Terminal then Some(today) else o.dateClosed)
    ensures newStage == Terminal ==> r.nextAction == o.nextAction && r.nextActionDate == o.nextActionDate
    ensures IsStage(newStage) && OppInvariant(o) ==> OppInvariant(r)
  {
    var applied := if AppliedOrLater(newStage) && o.dateApplied.None? then Some(today) else o.dateApplied;
    var closed := if newStage == Terminal then Some(today) else o.dateClosed;
    var next := CalculateNextAction(cfg, newStage);
    if newStage != Terminal && next.Ok? then
      o.(stage := newStage, dateApplied := applied, dateClosed := closed,
         nextAction := Some(next.value.text), nextActionDate := Some(today + next.value.days), updatedAt := today)
    else
      o.(stage := newStage, dateApplied := applied, dateClosed := closed, updatedAt := today)
  }

  /** Under a well-formed table a non-terminal move sets the next action due `days` after today. */
  lemma AdvancedNextAction(o: Opportunity, newStage: string, today: int, cfg: EngineConfig)
    requires WellFormed(cfg) && IsStage(newStage) && newStage != Terminal
    ensures var r := Advanced(o, newStage, today, cfg);
            && r.nextAction == Some(cfg.nextActions[newStage].text) && r.nextAction.value != []
            && r.nextActionDate == Some(today + cfg.nextActions[newStage].days)
            && r.nextActionDate.value > today
  {
    var _ := CalculateNextAction(cfg, newStage);
  }

  /** `date_applied` is set at most once: a second move never changes what the first one set. */
  lemma AdvanceAppliedIdempotent(o: Opportunity, s1: string, d1: int, s2: string, d2: int, cfg: EngineConfig)
    requires AppliedOrLater(s1)
    ensures var once := Advanced(o, s1, d1, cfg);
            once.dateApplied.Some? && Advanced(once, s2, d2, cfg).dateApplied == once.dateApplied
  {
  }

  /**
   * `advance_stage`: NotFound for an unknown id, InvalidStage for a stage outside the vocabulary,
   * and otherwise the opportunity becomes `Advanced(...)` and exactly one Stage Change entry is appended.
   */
  method AdvanceStage(db: Store, cfg: EngineConfig, oppId: int, newStage: string, note: Option<string>, today: int)
    returns (out: Outcome<EngineError>)
    requires db.Valid()
    modifies db`opps, db`log, db`nextActivityId
    ensures db.Valid()
    ensures var k := FindOpp(old(db.opps), oppId);
            && (k.None? ==> out == Fail(NotFound))
            && (k.Some? && !IsStage(newStage) ==> out == Fail(InvalidStage))
            && (out.Fail? ==> db.opps == old(db.opps) && db.log == old(db.log))
            && (k.Some? && IsStage(newStage) ==>
                  && out == Pass
                  && db.opps == old(db.opps)[k.value := Advanced(old(db.opps)[k.value], newStage, today, cfg)]
                  && db.log == old(db.log) + [ActivityRow(old(db.nextActivityId),
                       Entry(StageChange, Some(cfg.describe(newStage, note)), Some(oppId), None, None), today)])
  {
    var k := FindOpp(db.opps, oppId);
    if k.None? {
      return Fail(NotFound);
    }
    if !IsStage(newStage) {
      return Fail(InvalidStage);
    }
    var o := db.opps[k.value];
    UpdateOpportunity(db, k.value, Advanced(o, newStage, today, cfg));
    var _ := LogActivity(db, StageChange, Some(cfg.describe(newStage, note)), Some(oppId), None, Null, today);
    out := Pass;
  }

  /** The Stage Change text names the new stage (the assertion of test_advance_stage_logs_activity). */
  lemma StageChangeNamesStage(cfg: EngineConfig, newStage: string, note: Option<string>)
    requires WellFormed(cfg)
    ensures Contains(cfg.describe(newStage, note), newStage)
  {
  }

  // ---------------------------------------------------------------------------
  // Follow-up queue
  // ---------------------------------------------------------------------------

  /** The label a contact's follow-up is due under, if any: only Pending contacts with a Day 0 are considered. */
  function Due(c: Contact, today: int, cfg: EngineConfig): Option<string> {
    if c.responseStatus == "Pending" && c.outreachDay0.Some? then
      cfg.cadence(today - c.outreachDay0.value, c.outreachDay3.Some?, c.outreachDay7.Some?)
    else None
  }

  /** One row of `get_followup_queue()`: the contact, its opportunity's company and role, Day 0 and the reason. */
  datatype FollowupItem = FollowupItem(
    contactId: int,
    opportunityId: Option<int>,
    fullName: string,
    contactType: Option<string>,
    company: Option<string>,
    oppCompany: Option<string>,
    roleTitle: Option<string>,
    outreachDay0: Option<int>,
    reason: string)

  function ItemFor(c: Contact, opps: seq<Opportunity>, reason: string): (item: FollowupItem)
    ensures item.contactId == c.id && item.opportunityId == c.opportunityId && item.reason == reason
  {
    var k := if c.opportunityId.Some? then FindOpp(opps, c.opportunityId.value) else None;
    FollowupItem(c.id, c.opportunityId, c.fullName, c.contactType, c.company,
                 if k.Some? then Some(opps[k.value].company) else None,
                 if k.Some? then Some(opps[k.value].roleTitle) else None,
                 c.outreachDay0, reason)
  }

  /** `get_followup_queue()`: one item per due contact, in contact order. */
  function FollowupQueue(contacts: seq<Contact>, opps: seq<Opportunity>, today: int, cfg: EngineConfig): (q: seq<FollowupItem>)
    ensures |q| <= |contacts|
  {
    if contacts == [] then []
    else
      var c := contacts[0];
      var reason := Due(c, today, cfg);
      (if reason.Some? then [ItemFor(c, opps, reason.value)] else []) + FollowupQueue(contacts[1..], opps, today, cfg)
  }

  /** Every due contact has its item in the queue. */
  lemma {:induction false} QueueHasDue(contacts: seq<Contact>, opps: seq<Opportunity>, today: int, cfg: EngineConfig, c: Contact)
    requires c in contacts && Due(c, today, cfg).Some?
    ensures ItemFor(c, opps, Due(c, today, cfg).value) in FollowupQueue(contacts, opps, today, cfg)
  {
    if contacts[0] != c {
      assert c in contacts[1..];
      QueueHasDue(contacts[1..], opps, today, cfg, c);
    }
  }

  /** Every item of the queue is the item of a due contact. */
  lemma {:induction false} QueueSource(contacts: seq<Contact>, opps: seq<Opportunity>, today: int, cfg: EngineConfig, item: FollowupItem)
    returns (i: nat)
    requires item in FollowupQueue(contacts, opps, today, cfg)
    ensures i < |contacts| && Due(contacts[i], today, cfg) == Some(item.reason)
    ensures item == ItemFor(contacts[i], opps, item.reason)
  {
    var c := contacts[0];
    var reason := Due(c, today, cfg);
    if reason.Some? && item == ItemFor(c, opps, reason.value) {
      i := 0;
    } else {
      var j := QueueSource(contacts[1..], opps, today, cfg, item);
      i := j + 1;
    }
  }

  /** Every item of the queue belongs to a contact with an id above `bound` when every contact has one. */
  lemma QueueIdsAbove(contacts: seq<Contact>, opps: seq<Opportunity>, today: int, cfg: EngineConfig, bound: int)
    requires forall i :: 0 <= i < |contacts| ==> contacts[i].id > bound
    ensures forall k :: 0 <= k < |FollowupQueue(contacts, opps, today, cfg)| ==>
              FollowupQueue(contacts, opps, today, cfg)[k].contactId > bound
  {
    var q := FollowupQueue(contacts, opps, today, cfg);
    forall k | 0 <= k < |q|
      ensures q[k].contactId > bound
    {
      var i := QueueSource(contacts, opps, today, cfg, q[k]);
    }
  }

  /** Queue items in strictly increasing contact id order. */
  predicate ByContactId(q: seq<FollowupItem>) {
    forall i, j :: 0 <= i < j < |q| ==> q[i].contactId < q[j].contactId
  }

  /** Over a well-formed contacts table the queue follows the table's id order. */
  lemma {:induction false} QueueIdsAscending(contacts: seq<Contact>, next: int, opps: seq<Opportunity>, today: int, cfg: EngineConfig)
    requires ContactsOk(contacts, next)
    ensures ByContactId(FollowupQueue(contacts, opps, today, cfg))
  {
    if contacts != [] {
      var tail := contacts[1..];
      ContactsTail(contacts, next);
      QueueIdsAscending(tail, next, opps, today, cfg);
      QueueIdsAbove(tail, opps, today, cfg, contacts[0].id);
      var rest := FollowupQueue(tail, opps, today, cfg);
      var q := FollowupQueue(contacts, opps, today, cfg);
      var reason := Due(contacts[0], today, cfg);
      if reason.Some? {
        assert q == [ItemFor(contacts[0], opps, reason.value)] + rest;
        assert q[0].contactId == contacts[0].id;
        forall i, j | 0 <= i < j < |q|
          ensures q[i].contactId < q[j].contactId
        {
          assert q[j] == rest[j - 1] && rest[j - 1].contactId > contacts[0].id;
          if i > 0 {
            assert q[i] == rest[i - 1];
            assert rest[i - 1].contactId < rest[j - 1].contactId;
          }
        }
      } else {
        assert q == rest;
      }
    }
  }

  /** So no contact has two items in the queue. */
  lemma QueueOnePerContact(contacts: seq<Contact>, next: int, opps: seq<Opportunity>, today: int, cfg: EngineConfig)
    requires ContactsOk(contacts, next)
    ensures var q := FollowupQueue(contacts, opps, today, cfg);
            forall i, j :: 0 <= i < |q| && 0 <= j < |q| && i != j ==> q[i].contactId != q[j].contactId
  {
    QueueIdsAscending(contacts, next, opps, today, cfg);
    var q := FollowupQueue(contacts, opps, today, cfg);
    assert ByContactId(q);
    forall i, j | 0 <= i < |q| && 0 <= j < |q| && i != j
      ensures q[i].contactId != q[j].contactId
    {
      if i < j {
        assert q[i].contactId < q[j].contactId;
      } else {
        assert q[j].contactId < q[i].contactId;
      }
    }
  }

  /** A contact that is not due has no item, when contact ids are distinct. */
  lemma NotDueNotQueued(contacts: seq<Contact>, next: int, opps: seq<Opportunity>, today: int, cfg: EngineConfig, c: Contact)
    requires ContactsOk(contacts, next) && c in contacts && Due(c, today, cfg).None?
    ensures forall item :: item in FollowupQueue(contacts, opps, today, cfg) ==> item.contactId != c.id
  {
    forall item | item in FollowupQueue(contacts, opps, today, cfg)
      ensures item.contactId != c.id
    {
      var i := QueueSource(contacts, opps, today, cfg, item);
      var p :| 0 <= p < |contacts| && contacts[p] == c;
      assert contacts[i].id == item.contactId;
      if i != p {
        ContactIdsDistinct(contacts, next, i, p);
      }
    }
  }

  /** The queue items that belong to one opportunity, in queue order. */
  function ItemsFor(q: seq<FollowupItem>, opportunityId: Option<int>): (r: seq<FollowupItem>)
    ensures forall x :: x in r ==> x in q && x.opportunityId == opportunityId
    ensures forall x :: x in q && x.opportunityId == opportunityId ==> x in r
  {
    if q == [] then []
    else (if q[0].opportunityId == opportunityId then [q[0]] else []) + ItemsFor(q[1..], opportunityId)
  }

  /** When c is the only contact of its opportunity and is due, the opportunity's items are c's item. */
  lemma QueueForOpportunity(contacts: seq<Contact>, opps: seq<Opportunity>, today: int, cfg: EngineConfig, c: Contact)
    requires c in contacts && Due(c, today, cfg).Some?
    requires forall d :: d in contacts && d.opportunityId == c.opportunityId ==> d == c
    ensures var items := ItemsFor(FollowupQueue(contacts, opps, today, cfg), c.opportunityId);
            |items| >= 1 && forall x :: x in items ==> x == ItemFor(c, opps, Due(c, today, cfg).value)
  {
    var q := FollowupQueue(contacts, opps, today, cfg);
    QueueHasDue(contacts, opps, today, cfg, c);
    forall x | x in ItemsFor(q, c.opportunityId)
      ensures x == ItemFor(c, opps, Due(c, today, cfg).value)
    {
      var i := QueueSource(contacts, opps, today, cfg, x);
      assert contacts[i] in contacts;
    }
  }

  /** test_day3_contact_appears_in_queue: Pending, Day 0 three days ago, nothing sent since. */
  lemma Day3ContactQueued(contacts: seq<Contact>, opps: seq<Opportunity>, today: int, cfg: EngineConfig, c: Contact)
    requires WellFormed(cfg) && c in contacts
    requires c.responseStatus == "Pending" && c.outreachDay0 == Some(today - 3)
    requires c.outreachDay3.None? && c.outreachDay7.None?
    requires forall d :: d in contacts && d.opportunityId == c.opportunityId ==> d == c
    ensures var items := ItemsFor(FollowupQueue(contacts, opps, today, cfg), c.opportunityId);
            |items| >= 1 && items[0].contactId == c.id && Contains(items[0].reason, "Day 3")
  {
    assert Due(c, today, cfg) == cfg.cadence(3, false, false);
    QueueForOpportunity(contacts, opps, today, cfg, c);
    var items := ItemsFor(FollowupQueue(contacts, opps, today, cfg), c.opportunityId);
    assert items[0] in items;
  }

  /** test_day7_contact_appears_in_queue: Pending, Day 0 seven days ago, no Day 7 sent (a Day 3 may have been). */
  lemma Day7ContactQueued(contacts: seq<Contact>, opps: seq<Opportunity>, today: int, cfg: EngineConfig, c: Contact)
    requires WellFormed(cfg) && c in contacts
    requires c.responseStatus == "Pending" && c.outreachDay0 == Some(today - 7) && c.outreachDay7.None?
    requires forall d :: d in contacts && d.opportunityId == c.opportunityId ==> d == c
    ensures var items := ItemsFor(FollowupQueue(contacts, opps, today, cfg), c.opportunityId);
            |items| >= 1 && items[0].contactId == c.id && Contains(items[0].reason, "Day 7")
  {
    assert Due(c, today, cfg) == cfg.cadence(7, c.outreachDay3.Some?, false);
    QueueForOpportunity(contacts, opps, today, cfg, c);
    var items := ItemsFor(FollowupQueue(contacts, opps, today, cfg), c.opportunityId);
    assert items[0] in items;
  }

  /** test_responded_contact_not_in_queue: a contact that is not Pending is never queued, whatever its dates. */
  lemma RespondedNotQueued(contacts: seq<Contact>, next: int, opps: seq<Opportunity>, today: int, cfg: EngineConfig, c: Contact)
    requires ContactsOk(contacts, next) && c in contacts && c.responseStatus != "Pending"
    ensures forall item :: item in FollowupQueue(contacts, opps, today, cfg) ==> item.contactId != c.id
  {
    NotDueNotQueued(contacts, next, opps, today, cfg, c);
  }

  /** test_fresh_contact_not_in_queue: a contact whose Day 0 is today is not queued. */
  lemma FreshNotQueued(contacts: seq<Contact>, next: int, opps: seq<Opportunity>, today: int, cfg: EngineConfig, c: Contact)
    requires WellFormed(cfg) && ContactsOk(contacts, next) && c in contacts
    requires c.outreachDay0 == Some(today) && c.outreachDay3.None? && c.outreachDay7.None?
    ensures forall item :: item in FollowupQueue(contacts, opps, today, cfg) ==> item.contactId != c.id
  {
    assert Due(c, today, cfg).None?;
    NotDueNotQueued(contacts, next, opps, today, cfg, c);
  }

  /** A contact with both follow-ups sent has exhausted the cadence and is never queued again. */
  lemma ExhaustedNotQueued(contacts: seq<Contact>, next: int, opps: seq<Opportunity>, today: int, cfg: EngineConfig, c: Contact)
    requires WellFormed(cfg) && ContactsOk(contacts, next) && c in contacts
    requires c.outreachDay3.Some? && c.outreachDay7.Some?
    ensures forall item :: item in FollowupQueue(contacts, opps, today, cfg) ==> item.contactId != c.id
  {
    assert Due(c, today, cfg).None?;
    NotDueNotQueued(contacts, next, opps, today, cfg, c);
  }

  /** The cadence rule of the reference behaviour: Day 7 once a week has passed without one, else Day 3 after three days. */
  function ReferenceCadence(daysSince: int, day3Sent: bool, day7Sent: bool): (r: Option<string>)
    ensures r.Some? <==> (daysSince >= 7 && !day7Sent) || (daysSince >= 3 && !day3Sent)
    ensures daysSince >= 7 && !day7Sent ==> r == Some("Day 7 follow-up due")
  {
    if daysSince >= 7 && !day7Sent then Some("Day 7 follow-up due")
    else if daysSince >= 3 && !day3Sent then Some("Day 3 follow-up due")
    else None
  }

  /** The reference rule meets what the tests pin, so any table and description rule that do can use it. */
  lemma ReferenceCadenceWellFormed(nextActions: map<string, NextAction>, describe: (string, Option<string>) -> string)
    requires forall s :: s in StageOrder && s != Terminal ==> s in nextActions && nextActions[s].text != [] && nextActions[s].days > 0
    requires forall stage, note :: Contains(describe(stage, note), stage)
    ensures WellFormed(EngineConfig(nextActions, describe, ReferenceCadence))
  {
    var d3 := ReferenceCadence(3, false, false).value;
    var d7 := ReferenceCadence(7, false, false).value;
    assert d3 == "Day 3 follow-up due" && d3[0..5] == "Day 3";
    assert OccursAt(d3, "Day 3", 0);
    assert d7 == "Day 7 follow-up due" && d7[0..5] == "Day 7";
    assert OccursAt(d7, "Day 7", 0);
    assert ReferenceCadence(7, true, false) == ReferenceCadence(7, false, false);
  }

  // ---------------------------------------------------------------------------
  // Staleness
  // ---------------------------------------------------------------------------

  predicate IsStale(o: Opportunity, today: int, daysStale: int) {
    today - o.updatedAt >= daysStale && o.stage != Terminal
  }

  /** `flag_stale_records(days_stale)`: non-terminal opportunities not updated for `days_stale` days. */
  function StaleRecords(opps: seq<Opportunity>, today: int, daysStale: int): (r: Result<seq<Opportunity>, EngineError>)
    ensures r.Err? <==> daysStale <= 0
    ensures r.Err? ==> r.error == InvalidThreshold
    ensures r.Ok? ==> forall o :: o in r.value <==> o in opps && IsStale(o, today, daysStale)
  {
    if daysStale <= 0 then Err(InvalidThreshold) else Ok(StaleFilter(opps, today, daysStale))
  }

  function StaleFilter(opps: seq<Opportunity>, today: int, daysStale: int): (r: seq<Opportunity>)
    ensures forall o :: o in r <==> o in opps && IsStale(o, today, daysStale)
  {
    if opps == [] then []
    else
      assert forall o :: o in opps <==> o == opps[0] || o in opps[1..];
      (if IsStale(opps[0], today, daysStale) then [opps[0]] else []) + StaleFilter(opps[1..], today, daysStale)
  }

  function Ids(opps: seq<Opportunity>): (ids: seq<int>)
    ensures |ids| == |opps|
    ensures forall i :: 0 <= i < |opps| ==> ids[i] == opps[i].id
  {
    if opps == [] then [] else [opps[0].id] + Ids(opps[1..])
  }

  /** test_stale_record_detected: an opportunity untouched for ten days is flagged under a seven-day window. */
  lemma StaleAfterTenDays(opps: seq<Opportunity>, today: int, o: Opportunity)
    requires o in opps && o.stage != Terminal && o.updatedAt == today - 10
    ensures o.id in Ids(StaleRecords(opps, today, 7).value)
  {
    var r := StaleRecords(opps, today, 7).value;
    var k :| 0 <= k < |r| && r[k] == o;
    assert Ids(r)[k] == o.id;
  }

  /** test_recent_record_not_stale: an opportunity updated today is not flagged, when ids are distinct. */
  lemma FreshNotStale(opps: seq<Opportunity>, next: int, today: int, o: Opportunity, daysStale: int)
    requires OppsOk(opps, next) && o in opps && o.updatedAt == today && daysStale > 0
    ensures o.id !in Ids(StaleRecords(opps, today, daysStale).value)
  {
    var r := StaleRecords(opps, today, daysStale).value;
    forall k | 0 <= k < |r|
      ensures Ids(r)[k] != o.id
    {
      assert r[k] in opps && IsStale(r[k], today, daysStale);
      var p :| 0 <= p < |opps| && opps[p] == o;
      var q :| 0 <= q < |opps| && opps[q] == r[k];
      assert p != q;
      OppIdsDistinct(opps, next, p, q);
    }
  }

  // ---------------------------------------------------------------------------
  // Today queue
  // ---------------------------------------------------------------------------

  predicate DueToday(o: Opportunity, today: int) {
    o.nextActionDate.Some? && o.nextActionDate.value <= today && o.stage != Terminal
  }

  /** Ascending tier with NULL first, as SQLite orders it. */
  predicate TierLeq(x: Option<int>, y: Option<int>) {
    x.None? || (y.Some? && x.value <= y.value)
  }

  /** The order of `get_today_queue()`: due date ascending, then tier ascending. */
  predicate DueBefore(a: Opportunity, b: Opportunity) {
    var da := a.nextActionDate.GetOr(0);
    var db := b.nextActionDate.GetOr(0);
    da < db || (da == db && TierLeq(a.tier, b.tier))
  }

  predicate SortedByDue(s: seq<Opportunity>) {
    forall i, j :: 0 <= i < j < |s| ==> DueBefore(s[i], s[j])
  }

  function DueFilter(opps: seq<Opportunity>, today: int): (r: seq<Opportunity>)
    ensures forall o :: o in r <==> o in opps && DueToday(o, today)
  {
    if opps == [] then []
    else
      assert forall o :: o in opps <==> o == opps[0] || o in opps[1..];
      (if DueToday(opps[0], today) then [opps[0]] else []) + DueFilter(opps[1..], today)
  }

  function InsertByDue(x: Opportunity, s: seq<Opportunity>): (r: seq<Opportunity>)
    ensures multiset(r) == multiset(s) + multiset{x}
  {
    if s == [] then [x]
    else if DueBefore(x, s[0]) then [x] + s
    else
      assert s == [s[0]] + s[1..];
      [s[0]] + InsertByDue(x, s[1..])
  }

  function SortByDue(s: seq<Opportunity>): (r: seq<Opportunity>)
    ensures multiset(r) == multiset(s)
  {
    if s == [] then []
    else
      assert s == [s[0]] + s[1..];
      InsertByDue(s[0], SortByDue(s[1..]))
  }

  lemma {:induction false} InsertSorted(x: Opportunity, s: seq<Opportunity>)
    requires SortedByDue(s)
    ensures SortedByDue(InsertByDue(x, s))
  {
    if s != [] && !DueBefore(x, s[0]) {
      assert SortedByDue(s[1..]) by {
        forall i, j | 0 <= i < j < |s[1..]|
          ensures DueBefore(s[1..][i], s[1..][j])
        {
          assert s[1..][i] == s[i + 1] && s[1..][j] == s[j + 1];
        }
      }
      InsertSorted(x, s[1..]);
      InsertedAfterHead(x, s);
      ConsSorted(s[0], InsertByDue(x, s[1..]));
    }
  }

  /** Once `x` goes after the head of a sorted run, every element of the rest's insertion follows the head. */
  lemma InsertedAfterHead(x: Opportunity, s: seq<Opportunity>)
    requires SortedByDue(s) && s != [] && !DueBefore(x, s[0])
    ensures forall e :: e in InsertByDue(x, s[1..]) ==> DueBefore(s[0], e)
  {
    var t := InsertByDue(x, s[1..]);
    forall e | e in t
      ensures DueBefore(s[0], e)
    {
      assert e in multiset(t);
      assert e == x || e in multiset(s[1..]);
      if e != x {
        var j :| 0 <= j < |s[1..]| && s[1..][j] == e;
        assert s[1 + j] == e;
      }
    }
  }

  /** A head that goes before every element of a sorted run keeps it sorted. */
  lemma ConsSorted(h: Opportunity, t: seq<Opportunity>)
    requires SortedByDue(t) && forall e :: e in t ==> DueBefore(h, e)
    ensures SortedByDue([h] + t)
  {
    var r := [h] + t;
    forall i, j | 0 <= i < j < |r|
      ensures DueBefore(r[i], r[j])
    {
      if i == 0 {
        assert r[j] in t;
      } else {
        assert r[i] == t[i - 1] && r[j] == t[j - 1];
      }
    }
  }

  lemma {:induction false} SortSorted(s: seq<Opportunity>)
    ensures SortedByDue(SortByDue(s))
  {
    if s != [] {
      SortSorted(s[1..]);
      InsertSorted(s[0], SortByDue(s[1..]));
    }
  }

  /** `get_today_queue()`: the non-terminal opportunities whose next action is due, soonest first. */
  function TodayQueue(opps: seq<Opportunity>, today: int): (r: seq<Opportunity>)
    ensures multiset(r) == multiset(DueFilter(opps, today))
  {
    SortByDue(DueFilter(opps, today))
  }

  /** The today queue holds exactly the due opportunities, each as often as it is stored, in due order. */
  lemma TodayQueueSpec(opps: seq<Opportunity>, today: int)
    ensures var r := TodayQueue(opps, today);
            && SortedByDue(r)
            && (forall o :: o in r <==> o in opps && DueToday(o, today))
            && |r| == |DueFilter(opps, today)|
  {
    var r := TodayQueue(opps, today);
    SortSorted(DueFilter(opps, today));
    forall o
      ensures o in r <==> o in DueFilter(opps, today)
    {
      assert o in r <==> o in multiset(r);
      assert o in DueFilter(opps, today) <==> o in multiset(DueFilter(opps, today));
    }
    assert |r| == |multiset(r)|;
    assert |DueFilter(opps, today)| == |multiset(DueFilter(opps, today))|;
  }

  // ---------------------------------------------------------------------------
  // Pipeline summary
  // ---------------------------------------------------------------------------

  /** One row of `get_pipeline_summary()`. */
  datatype StageCount = StageCount(stage: string, count: int)

  function CountStage(opps: seq<Opportunity>, stage: string): (n: nat)
    ensures n <= |opps|
  {
    if opps == [] then 0 else (if opps[0].stage == stage then 1 else 0) + CountStage(opps[1..], stage)
  }

  function SummaryOver(opps: seq<Opportunity>, stages: seq<string>): (r: seq<StageCount>)
    ensures forall x :: x in r ==> x.stage in stages && x.count >= 1 && x.count == CountStage(opps, x.stage)
  {
    if stages == [] then []
    else
      var n := CountStage(opps, stages[0]);
      (if n >= 1 then [StageCount(stages[0], n)] else []) + SummaryOver(opps, stages[1..])
  }

  /** `get_pipeline_summary()`: the count of each stage that has at least one opportunity, in pipeline order. */
  function PipelineSummary(opps: seq<Opportunity>): (r: seq<StageCount>)
    ensures forall x :: x in r ==> IsStage(x.stage) && x.count >= 1 && x.count == CountStage(opps, x.stage)
  {
    SummaryOver(opps, StageOrder)
  }

  lemma {:induction false} SummaryOverComplete(opps: seq<Opportunity>, stages: seq<string>, s: string)
    requires s in stages && CountStage(opps, s) >= 1
    ensures StageCount(s, CountStage(opps, s)) in SummaryOver(opps, stages)
  {
    if stages[0] != s {
      SummaryOverComplete(opps, stages[1..], s);
    }
  }

  /** Every stage that has an opportunity has its row in the summary. */
  lemma PipelineSummaryComplete(opps: seq<Opportunity>, s: string)
    requires IsStage(s) && CountStage(opps, s) >= 1
    ensures StageCount(s, CountStage(opps, s)) in PipelineSummary(opps)
  {
    SummaryOverComplete(opps, StageOrder, s);
  }

  function Total(rows: seq<StageCount>): int {
    if rows == [] then 0 else rows[0].count + Total(rows[1..])
  }

  function SumCounts(opps: seq<Opportunity>, stages: seq<string>): nat {
    if stages == [] then 0 else CountStage(opps, stages[0]) + SumCounts(opps, stages[1..])
  }

  /** Opportunities whose stage is one of `stages`. */
  function CountIn(opps: seq<Opportunity>, stages: seq<string>): nat {
    if opps == [] then 0 else (if opps[0].stage in stages then 1 else 0) + CountIn(opps[1..], stages)
  }

  lemma {:induction false} SummaryTotal(opps: seq<Opportunity>, stages: seq<string>)
    ensures Total(SummaryOver(opps, stages)) == SumCounts(opps, stages)
  {
    if stages != [] {
      SummaryTotal(opps, stages[1..]);
      var n := CountStage(opps, stages[0]);
      var rest := SummaryOver(opps, stages[1..]);
      if n >= 1 {
        assert ([StageCount(stages[0], n)] + rest)[1..] == rest;
      } else {
        assert [] + rest == rest;
      }
    }
  }

  lemma {:induction false} CountInCons(opps: seq<Opportunity>, s: string, rest: seq<string>)
    requires s !in rest
    ensures CountIn(opps, [s] + rest) == CountStage(opps, s) + CountIn(opps, rest)
  {
    if opps != [] {
      CountInCons(opps[1..], s, rest);
    }
  }

  lemma {:induction false} SumCountsIsCountIn(opps: seq<Opportunity>, stages: seq<string>)
    requires forall i, j :: 0 <= i < j < |stages| ==> stages[i] != stages[j]
    ensures SumCounts(opps, stages) == CountIn(opps, stages)
  {
    if stages == [] {
      CountInNone(opps);
    } else {
      SumCountsIsCountIn(opps, stages[1..]);
      assert stages[0] !in stages[1..];
      assert [stages[0]] + stages[1..] == stages;
      CountInCons(opps, stages[0], stages[1..]);
    }
  }

  lemma {:induction false} CountInNone(opps: seq<Opportunity>)
    ensures CountIn(opps, []) == 0
  {
    if opps != [] {
      CountInNone(opps[1..]);
    }
  }

  lemma {:induction false} CountInAll(opps: seq<Opportunity>)
    requires forall i :: 0 <= i < |opps| ==> IsStage(opps[i].stage)
    ensures CountIn(opps, StageOrder) == |opps|
  {
    if opps != [] {
      CountInAll(opps[1..]);
    }
  }

  /** The summary's counts add up to the number of stored opportunities. */
  lemma PipelineSummaryTotal(opps: seq<Opportunity>, next: int)
    requires OppsOk(opps, next)
    ensures Total(PipelineSummary(opps)) == |opps|
  {
    SummaryTotal(opps, StageOrder);
    StageOrderDistinct();
    SumCountsIsCountIn(opps, StageOrder);
    CountInAll(opps);
  }
}
