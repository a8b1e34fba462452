/**
 * web/routes.py: the dashboard and contacts views' derived maps and sets, and the three POST
 * handlers that change the store. Form fields are parameters; a missing form field is None.
 */
module Routes {
  import opened Wrappers
  import opened Config
  import opened Text
  import opened Values
  import opened Tables
  import opened Activity
  import opened Contacts
  import opened Workflow

  // ---------------------------------------------------------------------------
  // dashboard and contacts views
  // ---------------------------------------------------------------------------

  /** The dashboard's `stage_counts`: each summary row's stage mapped to its count, a later row winning. */
  function StageCounts(rows: seq<StageCount>): (m: map<string, int>)
    ensures forall s :: s in m <==> exists k :: 0 <= k < |rows| && rows[k].stage == s
    ensures rows != [] ==> m[rows[|rows| - 1].stage] == rows[|rows| - 1].count
  {
    if rows == [] then map[]
    else
      var n := |rows| - 1;
      var m := StageCounts(rows[..n])[rows[n].stage := rows[n].count];
      assert forall k :: 0 <= k < n ==> rows[..n][k] == rows[k];
      m
  }

  /** Every key of `stage_counts` holds the count of one of its rows. */
  lemma {:induction false} StageCountsFromRow(rows: seq<StageCount>, s: string)
    requires s in StageCounts(rows)
    ensures exists k :: 0 <= k < |rows| && rows[k].stage == s && rows[k].count == StageCounts(rows)[s]
  {
    var n := |rows| - 1;
    if rows[n].stage != s {
      StageCountsFromRow(rows[..n], s);
      var k :| 0 <= k < n && rows[..n][k].stage == s && rows[..n][k].count == StageCounts(rows[..n])[s];
      assert rows[k] == rows[..n][k];
    }
  }

  /** On the pipeline summary, `stage_counts` maps exactly the occupied stages to their number of opportunities. */
  lemma StageCountsOfSummary(opps: seq<Opportunity>, s: string)
    ensures var m := StageCounts(PipelineSummary(opps));
            && (s in m <==> IsStage(s) && CountStage(opps, s) >= 1)
            && (s in m ==> m[s] == CountStage(opps, s))
  {
    var rows := PipelineSummary(opps);
    var m := StageCounts(rows);
    if s in m {
      StageCountsFromRow(rows, s);
      var k :| 0 <= k < |rows| && rows[k].stage == s && rows[k].count == m[s];
      assert rows[k] in rows;
    }
    if IsStage(s) && CountStage(opps, s) >= 1 {
      PipelineSummaryComplete(opps, s);
      var k :| 0 <= k < |rows| && rows[k] == StageCount(s, CountStage(opps, s));
      assert rows[k].stage == s;
    }
  }

  /** The contacts view's `followup_ids`: the contact ids in the follow-up queue. */
  function FollowupIds(queue: seq<FollowupItem>): (ids: set<int>)
    ensures forall id :: id in ids <==> exists k :: 0 <= k < |queue| && queue[k].contactId == id
  {
    set k | 0 <= k < |queue| :: queue[k].contactId
  }

  /** A contact id is highlighted exactly when a contact with that id is due for a follow-up. */
  lemma FollowupIdsAreDue(contacts: seq<Contact>, opps: seq<Opportunity>, today: int, cfg: EngineConfig, id: int)
    ensures id in FollowupIds(FollowupQueue(contacts, opps, today, cfg)) <==>
            exists i :: 0 <= i < |contacts| && contacts[i].id == id && Due(contacts[i], today, cfg).Some?
  {
    var q := FollowupQueue(contacts, opps, today, cfg);
    if id in FollowupIds(q) {
      var k :| 0 <= k < |q| && q[k].contactId == id;
      var i := QueueSource(contacts, opps, today, cfg, q[k]);
      assert contacts[i].id == id;
    }
    if exists i :: 0 <= i < |contacts| && contacts[i].id == id && Due(contacts[i], today, cfg).Some? {
      var i :| 0 <= i < |contacts| && contacts[i].id == id && Due(contacts[i], today, cfg).Some?;
      QueueHasDue(contacts, opps, today, cfg, contacts[i]);
      var item := ItemFor(contacts[i], opps, Due(contacts[i], today, cfg).value);
      var k :| 0 <= k < |q| && q[k] == item;
      assert q[k].contactId == id;
    }
  }

  // ---------------------------------------------------------------------------
  // POST handlers
  // ---------------------------------------------------------------------------

  /**
   * `advance_opp`: the engine is called only for a non-empty submitted stage, with an empty note
   * passed as no note; the handler checks nothing else.
   */
  method AdvanceOpp(db: Store, cfg: EngineConfig, oppId: int, newStage: Option<string>, note: Option<string>, today: int)
    returns (out: Option<Outcome<EngineError>>)
    requires db.Valid()
    modifies db`opps, db`log, db`nextActivityId
    ensures db.Valid()
    ensures out.None? <==> newStage.None? || newStage.value == ""
    ensures out.None? ==> db.opps == old(db.opps) && db.log == old(db.log)
    ensures out.Some? ==>
              var stage := newStage.value;
              var k := FindOpp(old(db.opps), oppId);
              && (k.None? ==> out.value == Fail(NotFound))
              && (k.Some? && !IsStage(stage) ==> out.value == Fail(InvalidStage))
              && (out.value.Fail? ==> db.opps == old(db.opps) && db.log == old(db.log))
              && (k.Some? && IsStage(stage) ==>
                    && out.value == Pass
                    && db.opps == old(db.opps)[k.value := Advanced(old(db.opps)[k.value], stage, today, cfg)]
                    && db.log == old(db.log) + [ActivityRow(old(db.nextActivityId),
                         Entry(StageChange, Some(cfg.describe(stage, NoteArg(note))), Some(oppId), None, None), today)])
  {
    if newStage.None? || newStage.value == "" {
      return None;
    }
    var r := AdvanceStage(db, cfg, oppId, newStage.value, NoteArg(note), today);
    out := Some(r);
  }

  /** `note or None` for a form field that defaults to "". */
  function NoteArg(note: Option<string>): (r: Option<string>)
    ensures r.None? <==> note.None? || note.value == ""
    ensures r.Some? ==> r == note
  {
    if note.None? || note.value == "" then None else note
  }

  /** The notes text after `add_note`: the old notes, a new line with the dated note, all stripped. */
  function AppendedNotes(existing: Option<string>, todayIso: string, note: string): string {
    Strip(existing.GetOr("") + "\n[" + todayIso + "] " + note)
  }

  /** With no earlier notes the result is just the dated note. */
  lemma AppendedToEmpty(todayIso: string, note: string)
    requires note != [] && IsStripped(note)
    ensures AppendedNotes(None, todayIso, note) == "[" + todayIso + "] " + note
    ensures AppendedNotes(Some(""), todayIso, note) == "[" + todayIso + "] " + note
  {
    var core := "[" + todayIso + "] " + note;
    assert core[|core| - 1] == note[|note| - 1];
    assert IsStripped(core);
    assert AllSpace("\n") && AllSpace("");
    StripFrame("\n", core, "");
    assert "" + "\n[" + todayIso + "] " + note == "\n" + core + "";
  }

  /** Whatever the earlier notes, the result ends with the note. */
  lemma AppendedEndsWithNote(existing: Option<string>, todayIso: string, note: string)
    requires note != [] && IsStripped(note)
    ensures EndsWith(AppendedNotes(existing, todayIso, note), note)
  {
    var x := existing.GetOr("") + "\n[" + todayIso + "] ";
    assert existing.GetOr("") + "\n[" + todayIso + "] " + note == x + note;
    StripKeepsTail(x, note);
  }

  /**
   * `add_note`: the submitted note is stripped; an empty one changes nothing. Otherwise the
   * opportunity's notes become `AppendedNotes(...)`, its `updated_at` becomes today, and one
   * Note Added entry carrying the note is logged. An unknown opportunity fails before anything
   * is written.
   */
  method AddNote(db: Store, oppId: int, rawNote: Option<string>, today: int, todayIso: string)
    returns (out: Outcome<EngineError>)
    requires db.Valid()
    modifies db`opps, db`log, db`nextActivityId
    ensures db.Valid()
    ensures var note := Strip(rawNote.GetOr(""));
            var k := FindOpp(old(db.opps), oppId);
            && (note == [] ==> out == Pass)
            && (note != [] && k.None? ==> out == Fail(NotFound))
            && (note == [] || k.None? ==> db.opps == old(db.opps) && db.log == old(db.log))
            && (note != [] && k.Some? ==>
                  var o := old(db.opps)[k.value];
                  && out == Pass
                  && db.opps == old(db.opps)[k.value := o.(notes := Some(AppendedNotes(o.notes, todayIso, note)), updatedAt := today)]
                  && db.log == old(db.log) + [ActivityRow(old(db.nextActivityId),
                       Entry(NoteAdded, Some(note), Some(oppId), None, None), today)])
  {
    var note := Strip(rawNote.GetOr(""));
    if note == [] {
      return Pass;
    }
    var k := FindOpp(db.opps, oppId);
    if k.None? {
      return Fail(NotFound);
    }
    var o := db.opps[k.value];
    UpdateOpportunity(db, k.value, o.(notes := Some(AppendedNotes(o.notes, todayIso, note)), updatedAt := today));
    var _ := LogActivity(db, NoteAdded, Some(note), Some(oppId), None, Null, today);
    out := Pass;
  }

  /** The status `mark_response` writes: the submitted one, "Responded" when the field is absent. */
  function ResponseStatus(status: Option<string>): (s: string)
    ensures status.None? ==> s == "Responded"
    ensures status.Some? ==> s == status.value
  {
    status.GetOr("Responded")
  }

  /**
   * `mark_response`: the contact's status is set, and one Response Received entry naming the
   * status is always logged, with the contact's opportunity or none for an unknown contact.
   */
  method MarkResponse(db: Store, contactId: int, status: Option<string>, today: int)
    requires db.Valid()
    modifies db`contacts, db`log, db`nextActivityId
    ensures db.Valid()
    ensures var s := ResponseStatus(status);
            var c := GetContact(db.contacts, contactId);
            && db.contacts == UpdatedRows(old(db.contacts), contactId, [Status(s)])
            && db.log == old(db.log) + [ActivityRow(old(db.nextActivityId),
                 Entry(ResponseReceived, Some("Response status updated to: " + s),
                       if c.Some? then c.value.opportunityId else None, Some(contactId), None), today)]
  {
    var s := ResponseStatus(status);
    var _ := UpdateContact(db, contactId, [Status(s)]);
    var c := GetContact(db.contacts, contactId);
    var _ := LogActivity(db, ResponseReceived, Some("Response status updated to: " + s),
                         if c.Some? then c.value.opportunityId else None, Some(contactId), Null, today);
  }

  /** The status write changes only the contact with that id, and only its status. */
  lemma MarkResponseRow(contacts: seq<Contact>, contactId: int, s: string, i: nat)
    requires i < |contacts|
    ensures var r := UpdatedRows(contacts, contactId, [Status(s)]);
            r[i] == (if contacts[i].id == contactId then contacts[i].(responseStatus := s) else contacts[i])
  {
    var f := [Status(s)];
    assert ApplyFields(contacts[i], f) == ApplyFields(f[0].ApplyTo(contacts[i]), f[1..]);
    assert f[1..] == [];
  }
}
