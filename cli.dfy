/**
 * main.py: the command-line commands that change the store. Prompt answers, the AI extraction
 * and the AI draft outcome are parameters.
 */
module Cli {
  import opened Wrappers
  import opened Config
  import opened Text
  import opened Values
  import opened Tables
  import opened Activity
  import opened Contacts
  import opened Workflow

  datatype CliError = ContactNotFound | DraftFailed

  // ---------------------------------------------------------------------------
  // add-job
  // ---------------------------------------------------------------------------

  const AddJobNote: string := "Opportunity created via add-job CLI"

  /**
   * The row `add-job` creates from the extracted fields and the prompt answers: stage "Prospect",
   * the Prospect next action due `days` after today, the keyword list as JSON text, and an empty
   * salary answer stored as NULL.
   */
  function NewJob(codec: JsonCodec, structured: map<string, Value>, company: string, roleTitle: string,
                  jobFamily: string, tier: int, sourceLabel: string, salary: string,
                  action: NextAction, today: int): (o: Opportunity)
    ensures o.stage == Initial && OppInvariant(o)
    ensures o.nextAction == Some(action.text) && o.nextActionDate == Some(today + action.days)
    ensures o.salaryRange.None? <==> salary == ""
    ensures o.jdKeywords == Some(codec.dumps(Get(structured, "keywords", Arr([]))))
    ensures o.dateApplied.None? && o.dateClosed.None? && o.fitScore.None?
  {
    Opportunity(
      0, company, roleTitle, Some(jobFamily), Some(tier), Initial, Some(sourceLabel),
      if salary == "" then None else Some(salary),
      AsText(Get(structured, "source_url", Null)),
      AsText(Get(structured, "raw_text", Null)),
      Some(codec.dumps(Get(structured, "keywords", Arr([])))),
      None, None, Some(action.text), Some(today + action.days), None, None, None, today, today)
  }

  /** Under a well-formed table a new job's next action is due strictly after today. */
  lemma NewJobDueLater(codec: JsonCodec, structured: map<string, Value>, company: string, roleTitle: string,
                       jobFamily: string, tier: int, sourceLabel: string, salary: string,
                       cfg: EngineConfig, today: int)
    requires WellFormed(cfg)
    ensures CalculateNextAction(cfg, Initial).Ok?
    ensures var o := NewJob(codec, structured, company, roleTitle, jobFamily, tier, sourceLabel, salary,
                            CalculateNextAction(cfg, Initial).value, today);
            o.nextActionDate.Some? && o.nextActionDate.value > today && o.nextAction.value != []
  {
    assert IsStage(Initial);
  }

  /**
   * `add-job`: one new opportunity and exactly one Note Added entry for it. A next-action
   * lookup that fails aborts the command before anything is written.
   */
  method AddJob(db: Store, cfg: EngineConfig, structured: map<string, Value>, company: string, roleTitle: string,
                jobFamily: string, tier: int, sourceLabel: string, salary: string, today: int)
    returns (r: Result<int, EngineError>)
    requires db.Valid()
    modifies db`opps, db`nextOppId, db`log, db`nextActivityId
    ensures db.Valid()
    ensures var next := CalculateNextAction(cfg, Initial);
            && (next.Err? ==> r == Err(next.error) && db.opps == old(db.opps) && db.log == old(db.log))
            && (next.Ok? ==>
                  var o := NewJob(db.codec, structured, company, roleTitle, jobFamily, tier, sourceLabel, salary, next.value, today);
                  && r == Ok(old(db.nextOppId))
                  && db.opps == old(db.opps) + [o.(id := r.value)]
                  && db.log == old(db.log) + [ActivityRow(old(db.nextActivityId),
                       Entry(NoteAdded, Some(AddJobNote), Some(r.value), None, None), today)])
  {
    var next := CalculateNextAction(cfg, Initial);
    if next.Err? {
      return Err(next.error);
    }
    var o := NewJob(db.codec, structured, company, roleTitle, jobFamily, tier, sourceLabel, salary, next.value, today);
    var id := InsertOpportunity(db, o);
    var _ := LogActivity(db, NoteAdded, Some(AddJobNote), Some(id), None, Null, today);
    r := Ok(id);
  }

  // ---------------------------------------------------------------------------
  // send-outreach
  // ---------------------------------------------------------------------------

  /** The fields the Day 0 mark writes. */
  function DayZeroFields(today: int): seq<ContactField> {
    [Day0(today), Status(Pending)]
  }

  /** The Day 0 mark sets Day 0 to today and the status to Pending and touches nothing else. */
  lemma DayZeroMark(c: Contact, today: int)
    ensures ApplyFields(c, DayZeroFields(today)) == c.(outreachDay0 := Some(today), responseStatus := Pending)
  {
    var f := DayZeroFields(today);
    var c1 := f[0].ApplyTo(c);
    assert c1 == c.(outreachDay0 := Some(today));
    assert ApplyFields(c, f) == ApplyFields(c1, f[1..]);
    var c2 := f[1..][0].ApplyTo(c1);
    assert c2 == c.(outreachDay0 := Some(today), responseStatus := Pending);
    assert ApplyFields(c1, f[1..]) == ApplyFields(c2, f[1..][1..]);
    assert f[1..][1..] == [];
  }

  /** A contact just marked, with no follow-ups sent, is not due the same day under a well-formed cadence. */
  lemma MarkedNotDueToday(c: Contact, today: int, cfg: EngineConfig)
    requires WellFormed(cfg) && c.outreachDay3.None? && c.outreachDay7.None?
    ensures Due(ApplyFields(c, DayZeroFields(today)), today, cfg).None?
  {
    DayZeroMark(c, today);
  }

  /**
   * `send-outreach`: unknown contacts and failed drafts abort with nothing written; a declined
   * confirmation writes nothing; a confirmed one applies the Day 0 mark and logs one Outreach Sent entry.
   */
  method SendOutreach(db: Store, contactId: int, draftOk: bool, confirmed: bool, today: int)
    returns (out: Outcome<CliError>)
    requires db.Valid()
    modifies db`contacts, db`log, db`nextActivityId
    ensures db.Valid()
    ensures var c := GetContact(old(db.contacts), contactId);
            && (c.None? ==> out == Fail(ContactNotFound))
            && (c.Some? && !draftOk ==> out == Fail(DraftFailed))
            && (c.Some? && draftOk ==> out == Pass)
            && (c.None? || !draftOk || !confirmed ==> db.contacts == old(db.contacts) && db.log == old(db.log))
            && (c.Some? && draftOk && confirmed ==>
                  && db.contacts == UpdatedRows(old(db.contacts), contactId, DayZeroFields(today))
                  && db.log == old(db.log) + [ActivityRow(old(db.nextActivityId),
                       Entry(OutreachSent, Some("Day 0 outreach sent to " + c.value.fullName),
                             c.value.opportunityId, Some(contactId), None), today)])
  {
    var c := GetContact(db.contacts, contactId);
    if c.None? {
      return Fail(ContactNotFound);
    }
    if !draftOk {
      return Fail(DraftFailed);
    }
    if confirmed {
      var _ := UpdateContact(db, contactId, DayZeroFields(today));
      var _ := LogActivity(db, OutreachSent, Some("Day 0 outreach sent to " + c.value.fullName),
                           c.value.opportunityId, Some(contactId), Null, today);
    }
    out := Pass;
  }

  // ---------------------------------------------------------------------------
  // follow-up
  // ---------------------------------------------------------------------------

  /** The four choices of the follow-up prompt. */
  datatype Answer = Sent | Skip | Responded | NoResponse

  /** Days since Day 0; a contact without one counts as 0 days. */
  function DaysSince(day0: Option<int>, today: int): int {
    if day0.Some? then today - day0.value else 0
  }

  /** The write rule of `follow-up`: "sent" stamps Day 7 from six days on, Day 3 before. */
  function AnswerFields(item: FollowupItem, a: Answer, today: int): (fs: seq<ContactField>)
    ensures a == Skip <==> fs == []
    ensures a == Sent ==> fs == [if DaysSince(item.outreachDay0, today) >= 6 then Day7(today) else Day3(today)]
    ensures a == Responded ==> fs == [Status("Responded")]
    ensures a == NoResponse ==> fs == [Status("No Response")]
  {
    match a
    case Sent => [if DaysSince(item.outreachDay0, today) >= 6 then Day7(today) else Day3(today)]
    case Skip => []
    case Responded => [Status("Responded")]
    case NoResponse => [Status("No Response")]
  }

  /** The label of the field "sent" stamps. */
  function SentLabel(item: FollowupItem, today: int): string {
    if DaysSince(item.outreachDay0, today) >= 6 then "Day 7" else "Day 3"
  }

  /** The entry each answer logs: Follow-Up Sent naming the stamped field, Response Received, or none. */
  function AnswerEntry(item: FollowupItem, a: Answer, today: int): (e: Option<Entry>)
    ensures e.Some? <==> a == Sent || a == Responded
    ensures e.Some? ==> e.value.opportunityId == item.opportunityId && e.value.contactId == Some(item.contactId)
    ensures a == Sent ==> e.value.kind == FollowUpSent
    ensures a == Responded ==> e.value.kind == ResponseReceived && e.value.description == Some(item.fullName + " responded")
  {
    match a
    case Sent => Some(Entry(FollowUpSent, Some(SentLabel(item, today) + " follow-up sent to " + item.fullName),
                            item.opportunityId, Some(item.contactId), None))
    case Responded => Some(Entry(ResponseReceived, Some(item.fullName + " responded"),
                                 item.opportunityId, Some(item.contactId), None))
    case Skip => None
    case NoResponse => None
  }

  /** "sent" stamps exactly one of the two follow-up fields, and the entry names the one it stamped. */
  lemma SentStampsOneField(c: Contact, item: FollowupItem, today: int)
    ensures var c2 := ApplyFields(c, AnswerFields(item, Sent, today));
            var n := DaysSince(item.outreachDay0, today);
            && (n >= 6 ==> c2 == c.(outreachDay7 := Some(today)))
            && (n < 6 ==> c2 == c.(outreachDay3 := Some(today)))
            && AnswerEntry(item, Sent, today).value.description ==
                 Some((if n >= 6 then "Day 7" else "Day 3") + " follow-up sent to " + item.fullName)
  {
    var fs := AnswerFields(item, Sent, today);
    assert fs[1..] == [];
  }

  /** No Day 0 counts as zero days, so "sent" stamps Day 3. */
  lemma NoDayZeroStampsDay3(item: FollowupItem, today: int)
    requires item.outreachDay0.None?
    ensures AnswerFields(item, Sent, today) == [Day3(today)]
    ensures SentLabel(item, today) == "Day 3"
  {
  }

  /**
   * The write rule and the read-time label are separate rules: six days after Day 0 "sent"
   * stamps Day 7 although the reference cadence still labels the contact as a Day 3 follow-up.
   */
  lemma WriteRuleAheadOfLabel(item: FollowupItem, today: int)
    requires item.outreachDay0 == Some(today - 6)
    ensures AnswerFields(item, Sent, today) == [Day7(today)]
    ensures ReferenceCadence(6, false, false) == Some("Day 3 follow-up due")
  {
  }

  /** The contacts table after answering the first |answers| items, in queue order. */
  function ApplyAnswers(contacts: seq<Contact>, items: seq<FollowupItem>, answers: seq<Answer>, today: int): (r: seq<Contact>)
    requires |items| == |answers|
    ensures |r| == |contacts|
    ensures forall i :: 0 <= i < |r| ==> r[i].id == contacts[i].id
    decreases |items|
  {
    if items == [] then contacts
    else
      var n := |items| - 1;
      var before := ApplyAnswers(contacts, items[..n], answers[..n], today);
      var fs := AnswerFields(items[n], answers[n], today);
      if fs == [] then before else UpdatedRows(before, items[n].contactId, fs)
  }

  /** The entries logged while answering the items, in queue order. */
  function AnswerEntries(items: seq<FollowupItem>, answers: seq<Answer>, today: int): (r: seq<Entry>)
    requires |items| == |answers|
    ensures |r| <= |items|
    decreases |items|
  {
    if items == [] then []
    else
      var n := |items| - 1;
      var e := AnswerEntry(items[n], answers[n], today);
      AnswerEntries(items[..n], answers[..n], today) + (if e.Some? then [e.value] else [])
  }

  /** Answering only skips and no-responses logs nothing. */
  lemma {:induction false} QuietAnswersLogNothing(items: seq<FollowupItem>, answers: seq<Answer>, today: int)
    requires |items| == |answers|
    requires forall i :: 0 <= i < |answers| ==> answers[i] == Skip || answers[i] == NoResponse
    ensures AnswerEntries(items, answers, today) == []
    decreases |items|
  {
    if items != [] {
      var n := |items| - 1;
      QuietAnswersLogNothing(items[..n], answers[..n], today);
    }
  }

  /** Every sent or responded answer logs exactly one entry. */
  lemma {:induction false} AnswerEntriesCount(items: seq<FollowupItem>, answers: seq<Answer>, today: int)
    requires |items| == |answers|
    ensures |AnswerEntries(items, answers, today)| == CountLogged(answers)
    decreases |items|
  {
    if items != [] {
      var n := |items| - 1;
      AnswerEntriesCount(items[..n], answers[..n], today);
      assert answers[..n] == answers[..|answers| - 1];
    }
  }

  function CountLogged(answers: seq<Answer>): nat {
    if answers == [] then 0
    else CountLogged(answers[..|answers| - 1]) + (if answers[|answers| - 1] in {Sent, Responded} then 1 else 0)
  }

  /** The contacts table after answering one more item. */
  function AnswerStep(contacts: seq<Contact>, item: FollowupItem, a: Answer, today: int): seq<Contact> {
    var fs := AnswerFields(item, a, today);
    if fs == [] then contacts else UpdatedRows(contacts, item.contactId, fs)
  }

  lemma AnswersSnoc(contacts: seq<Contact>, items: seq<FollowupItem>, answers: seq<Answer>, i: nat, today: int)
    requires |items| == |answers| && i < |items|
    ensures ApplyAnswers(contacts, items[..i + 1], answers[..i + 1], today)
            == AnswerStep(ApplyAnswers(contacts, items[..i], answers[..i], today), items[i], answers[i], today)
    ensures AnswerEntries(items[..i + 1], answers[..i + 1], today)
            == AnswerEntries(items[..i], answers[..i], today)
               + (var e := AnswerEntry(items[i], answers[i], today); if e.Some? then [e.value] else [])
  {
    assert items[..i + 1][..i] == items[..i];
    assert answers[..i + 1][..i] == answers[..i];
  }

  /** One answer of `follow-up`: its contact update and its entry, if any. */
  method AnswerItem(db: Store, item: FollowupItem, a: Answer, today: int)
    requires db.Valid()
    modifies db`contacts, db`log, db`nextActivityId
    ensures db.Valid()
    ensures db.contacts == AnswerStep(old(db.contacts), item, a, today)
    ensures var e := AnswerEntry(item, a, today);
            && |db.log| == |old(db.log)| + (if e.Some? then 1 else 0)
            && db.log[..|old(db.log)|] == old(db.log)
            && Entries(db.log[|old(db.log)|..]) == (if e.Some? then [e.value] else [])
  {
    var fs := AnswerFields(item, a, today);
    var e := AnswerEntry(item, a, today);
    var _ := UpdateContact(db, item.contactId, fs);
    if e.Some? {
      ghost var log0 := db.log;
      var _ := LogActivity(db, e.value.kind, e.value.description, e.value.opportunityId, e.value.contactId, Null, today);
      OneEntry(log0, db.log, e.value);
    }
  }

  /** A log grown by one row whose entry is `e`. */
  lemma OneEntry(log0: seq<ActivityRow>, log: seq<ActivityRow>, e: Entry)
    requires |log| == |log0| + 1 && log[..|log0|] == log0
    requires log[|log0|].entry == e
    ensures Entries(log[|log0|..]) == [e]
  {
    assert log[|log0|..] == [log[|log0|]];
  }

  /**
   * `follow-up`: the queue is read once; each item's answer is applied to its contact and logged
   * in queue order, and no earlier log row changes.
   */
  method FollowUp(db: Store, cfg: EngineConfig, answers: seq<Answer>, today: int)
    returns (queue: seq<FollowupItem>)
    requires db.Valid()
    requires |answers| == |FollowupQueue(db.contacts, db.opps, today, cfg)|
    modifies db`contacts, db`log, db`nextActivityId
    ensures db.Valid()
    ensures queue == FollowupQueue(old(db.contacts), old(db.opps), today, cfg)
    ensures db.contacts == ApplyAnswers(old(db.contacts), queue, answers, today)
    ensures |old(db.log)| <= |db.log| && db.log[..|old(db.log)|] == old(db.log)
    ensures Entries(db.log[|old(db.log)|..]) == AnswerEntries(queue, answers, today)
  {
    queue := FollowupQueue(db.contacts, db.opps, today, cfg);
    ghost var contacts0 := db.contacts;
    ghost var log0 := db.log;
    var i := 0;
    while i < |queue|
      invariant 0 <= i <= |queue|
      invariant db.Valid()
      invariant db.contacts == ApplyAnswers(contacts0, queue[..i], answers[..i], today)
      invariant |log0| <= |db.log| && db.log[..|log0|] == log0
      invariant Entries(db.log[|log0|..]) == AnswerEntries(queue[..i], answers[..i], today)
    {
      ghost var logBefore := db.log;
      AnswerItem(db, queue[i], answers[i], today);
      LogExtends(log0, logBefore, db.log);
      AnswersSnoc(contacts0, queue, answers, i, today);
      i := i + 1;
    }
    assert queue[..i] == queue;
    assert answers[..i] == answers;
  }

  lemma LogExtends(log0: seq<ActivityRow>, mid: seq<ActivityRow>, log: seq<ActivityRow>)
    requires |log0| <= |mid| && mid[..|log0|] == log0
    requires |mid| <= |log| && log[..|mid|] == mid
    ensures log[..|log0|] == log0
    ensures Entries(log[|log0|..]) == Entries(mid[|log0|..]) + Entries(log[|mid|..])
  {
    assert log[|log0|..] == mid[|log0|..] + log[|mid|..];
    EntriesConcat(mid[|log0|..], log[|mid|..]);
  }

  lemma EntriesConcat(a: seq<ActivityRow>, b: seq<ActivityRow>)
    ensures Entries(a + b) == Entries(a) + Entries(b)
  {
  }

  // ---------------------------------------------------------------------------
  // advance
  // ---------------------------------------------------------------------------

  /** `advance`: a stage outside the vocabulary is refused before the engine is called; an empty note is no note. */
  method Advance(db: Store, cfg: EngineConfig, oppId: int, newStage: string, note: string, today: int)
    returns (out: Outcome<EngineError>)
    requires db.Valid()
    modifies db`opps, db`log, db`nextActivityId
    ensures db.Valid()
    ensures !IsStage(newStage) ==> out == Fail(InvalidStage) && db.opps == old(db.opps) && db.log == old(db.log)
    ensures IsStage(newStage) ==>
              var k := FindOpp(old(db.opps), oppId);
              && (k.None? ==> out == Fail(NotFound) && db.opps == old(db.opps) && db.log == old(db.log))
              && (k.Some? ==>
                    && out == Pass
                    && db.opps == old(db.opps)[k.value := Advanced(old(db.opps)[k.value], newStage, today, cfg)]
                    && db.log == old(db.log) + [ActivityRow(old(db.nextActivityId),
                         Entry(StageChange, Some(cfg.describe(newStage, if note == "" then None else Some(note))),
                               Some(oppId), None, None), today)])
  {
    if !IsStage(newStage) {
      return Fail(InvalidStage);
    }
    out := AdvanceStage(db, cfg, oppId, newStage, if note == "" then None else Some(note), today);
  }

  // ---------------------------------------------------------------------------
  // export
  // ---------------------------------------------------------------------------

  predicate Exported(key: string) {
    !EndsWith(key, "_parsed") && !EndsWith(key, "_list")
  }

  /** The CSV columns of `export`: the record's keys in their order, without `_parsed` and `_list` ones. */
  function ExportColumns(keys: seq<string>): (cols: seq<string>)
    ensures forall k :: k in cols <==> k in keys && Exported(k)
    ensures |cols| <= |keys|
  {
    if keys == [] then []
    else
      assert forall k :: k in keys <==> k == keys[0] || k in keys[1..];
      (if Exported(keys[0]) then [keys[0]] else []) + ExportColumns(keys[1..])
  }

  /** The column filter keeps the key order: it distributes over concatenation. */
  lemma {:induction false} ExportColumnsConcat(a: seq<string>, b: seq<string>)
    ensures ExportColumns(a + b) == ExportColumns(a) + ExportColumns(b)
  {
    if a == [] {
      assert a + b == b;
    } else {
      assert (a + b)[0] == a[0];
      assert (a + b)[1..] == a[1..] + b;
      ExportColumnsConcat(a[1..], b);
    }
  }

  /** One CSV row: the record's values for the exported columns. */
  function ExportRow(record: map<string, Value>, cols: seq<string>): (row: map<string, Value>)
    ensures forall k :: k in row <==> k in record && k in cols
    ensures forall k :: k in row ==> row[k] == record[k]
  {
    map k | k in record && k in cols :: record[k]
  }

  datatype Csv = Csv(columns: seq<string>, rows: seq<map<string, Value>>)

  /** A run of keys with no key twice, as the keys of one dict are. */
  predicate NoRepeats(keys: seq<string>) {
    forall i, j :: 0 <= i < j < |keys| ==> keys[i] != keys[j]
  }

  /** The column filter never repeats a key. */
  lemma {:induction false} ExportColumnsNoRepeats(keys: seq<string>)
    requires NoRepeats(keys)
    ensures NoRepeats(ExportColumns(keys))
  {
    if keys != [] {
      var rest := keys[1..];
      assert NoRepeats(rest) by {
        forall i, j | 0 <= i < j < |rest|
          ensures rest[i] != rest[j]
        {
          assert rest[i] == keys[i + 1] && rest[j] == keys[j + 1];
        }
      }
      ExportColumnsNoRepeats(rest);
      assert keys[0] !in rest by {
        forall i | 0 <= i < |rest|
          ensures rest[i] != keys[0]
        {
          assert rest[i] == keys[i + 1];
        }
      }
    }
  }

  /**
   * `export`: nothing when there are no opportunities; otherwise the columns come from the first
   * record's keys (`firstKeys`, that dict's keys in its order) and every record gives one row.
   */
  function Export(firstKeys: seq<string>, records: seq<map<string, Value>>): (r: Option<Csv>)
    requires records != [] ==> NoRepeats(firstKeys) && forall k :: k in firstKeys <==> k in records[0]
    ensures r.None? <==> records == []
    ensures r.Some? ==> r.value.columns == ExportColumns(firstKeys) && |r.value.rows| == |records|
    ensures r.Some? ==> NoRepeats(r.value.columns) && forall k :: k in r.value.columns <==> k in records[0] && Exported(k)
    ensures r.Some? ==> forall i :: 0 <= i < |records| ==> r.value.rows[i] == ExportRow(records[i], r.value.columns)
  {
    if records == [] then None
    else
      var cols := ExportColumns(firstKeys);
      ExportColumnsNoRepeats(firstKeys);
      Some(Csv(cols, seq(|records|, i requires 0 <= i < |records| => ExportRow(records[i], cols))))
  }
}
