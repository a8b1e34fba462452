/**
 * The tracker's SQLite store: the opportunities, contacts and activity_log
 * tables as sequences in rowid order, with the id counters SQLite keeps.
 * Dates and timestamps are whole day numbers.
 */
module Tables {
  import opened Wrappers
  import opened Config
  import opened Values

  /** One row of the opportunities table. */
  datatype Opportunity = Opportunity(
    id: int,
    company: string,
    roleTitle: string,
    jobFamily: Option<string>,
    tier: Option<int>,
    stage: string,
    source: Option<string>,
    salaryRange: Option<string>,
    jdUrl: Option<string>,
    jdRaw: Option<string>,
    jdKeywords: Option<string>,
    fitScore: Option<int>,
    aiFitSummary: Option<string>,
    nextAction: Option<string>,
    nextActionDate: Option<int>,
    dateApplied: Option<int>,
    dateClosed: Option<int>,
    notes: Option<string>,
    createdAt: int,
    updatedAt: int)

  /** One row of the contacts table (the `Contact` record of contact.py). */
  datatype Contact = Contact(
    id: int,
    opportunityId: Option<int>,
    fullName: string,
    title: Option<string>,
    company: Option<string>,
    linkedinUrl: Option<string>,
    email: Option<string>,
    contactType: Option<string>,
    outreachDay0: Option<int>,
    outreachDay3: Option<int>,
    outreachDay7: Option<int>,
    responseStatus: string,
    callCompleted: bool,
    referralAsked: bool,
    referralGiven: bool,
    notes: Option<string>,
    createdAt: int,
    updatedAt: int)

  /** The activity types the tracker writes. */
  datatype ActivityType = NoteAdded | StageChange | OutreachSent | FollowUpSent | ResponseReceived | AiAction
  {
    function Label(): string {
      match this
      case NoteAdded => "Note Added"
      case StageChange => "Stage Change"
      case OutreachSent => "Outreach Sent"
      case FollowUpSent => "Follow-Up Sent"
      case ResponseReceived => "Response Received"
      case AiAction => "AI Action"
    }
  }

  /** What `log_activity` is given: the type, description, the two optional ids and the stored metadata text. */
  datatype Entry = Entry(
    kind: ActivityType,
    description: Option<string>,
    opportunityId: Option<int>,
    contactId: Option<int>,
    metadata: Option<string>)

  /** One row of the append-only activity_log table. */
  datatype ActivityRow = ActivityRow(id: int, entry: Entry, createdAt: int)

  /** The entries of a run of log rows, without their ids and timestamps. */
  function Entries(rows: seq<ActivityRow>): (r: seq<Entry>)
    ensures |r| == |rows|
    ensures forall i :: 0 <= i < |rows| ==> r[i] == rows[i].entry
  {
    if rows == [] then [] else [rows[0].entry] + Entries(rows[1..])
  }

  /** What the stage rules keep true of every opportunity row. */
  predicate OppInvariant(o: Opportunity) {
    && IsStage(o.stage)
    && (o.stage == Terminal ==> o.dateClosed.Some?)
    && (AppliedOrLater(o.stage) ==> o.dateApplied.Some?)
  }

  /** The id of the `i`th row. Orderings between rows are stated on these so that they apply only where a proof names them. */
  function OppIdAt(opps: seq<Opportunity>, i: int): int
    requires 0 <= i < |opps|
  {
    opps[i].id
  }

  function ContactIdAt(contacts: seq<Contact>, i: int): int
    requires 0 <= i < |contacts|
  {
    contacts[i].id
  }

  function RowIdAt(log: seq<ActivityRow>, i: int): int
    requires 0 <= i < |log|
  {
    log[i].id
  }

  predicate OppsOk(opps: seq<Opportunity>, next: int) {
    && (forall i, j :: 0 <= i < j < |opps| ==> OppIdAt(opps, i) < OppIdAt(opps, j))
    && (forall i :: 0 <= i < |opps| ==> opps[i].id < next && OppInvariant(opps[i]))
  }

  predicate ContactsOk(contacts: seq<Contact>, next: int) {
    && (forall i, j :: 0 <= i < j < |contacts| ==> ContactIdAt(contacts, i) < ContactIdAt(contacts, j))
    && (forall i :: 0 <= i < |contacts| ==> contacts[i].id < next)
  }

  predicate LogOk(log: seq<ActivityRow>, next: int) {
    && (forall i, j :: 0 <= i < j < |log| ==> RowIdAt(log, i) < RowIdAt(log, j))
    && (forall i :: 0 <= i < |log| ==> log[i].id < next)
  }

  /** Index of the newest row whose key is `id`: the lookup by primary key both tables share. */
  function FindRow<T>(rows: seq<T>, key: T -> int, id: int): (r: Option<nat>)
    ensures r.Some? ==> r.value < |rows| && key(rows[r.value]) == id
    ensures r.None? ==> forall i :: 0 <= i < |rows| ==> key(rows[i]) != id
  {
    if rows == [] then None
    else if key(rows[|rows| - 1]) == id then Some(|rows| - 1)
    else FindRow(rows[..|rows| - 1], key, id)
  }

  /** Index of the opportunity with the given id. */
  function FindOpp(opps: seq<Opportunity>, id: int): (r: Option<nat>)
    ensures r.Some? ==> r.value < |opps| && opps[r.value].id == id
    ensures r.None? ==> forall i :: 0 <= i < |opps| ==> opps[i].id != id
  {
    FindRow(opps, (o: Opportunity) => o.id, id)
  }

  /** Index of the contact with the given id. */
  function FindContact(contacts: seq<Contact>, id: int): (r: Option<nat>)
    ensures r.Some? ==> r.value < |contacts| && contacts[r.value].id == id
    ensures r.None? ==> forall i :: 0 <= i < |contacts| ==> contacts[i].id != id
  {
    FindRow(contacts, (c: Contact) => c.id, id)
  }

  /** Distinct rows of a well-formed opportunities table have distinct ids. */
  lemma OppIdsDistinct(opps: seq<Opportunity>, next: int, p: nat, q: nat)
    requires OppsOk(opps, next) && p < |opps| && q < |opps| && p != q
    ensures opps[p].id != opps[q].id
  {
    if p < q {
      assert OppIdAt(opps, p) < OppIdAt(opps, q);
    } else {
      assert OppIdAt(opps, q) < OppIdAt(opps, p);
    }
  }

  /** Distinct rows of a well-formed contacts table have distinct ids. */
  lemma ContactIdsDistinct(contacts: seq<Contact>, next: int, p: nat, q: nat)
    requires ContactsOk(contacts, next) && p < |contacts| && q < |contacts| && p != q
    ensures contacts[p].id != contacts[q].id
  {
    if p < q {
      assert ContactIdAt(contacts, p) < ContactIdAt(contacts, q);
    } else {
      assert ContactIdAt(contacts, q) < ContactIdAt(contacts, p);
    }
  }

  lemma OppsAppend(opps: seq<Opportunity>, next: int, o: Opportunity)
    requires OppsOk(opps, next) && o.id == next && OppInvariant(o)
    ensures OppsOk(opps + [o], next + 1)
  {
    var t := opps + [o];
    forall i, j | 0 <= i < j < |t|
      ensures OppIdAt(t, i) < OppIdAt(t, j)
    {
      assert t[i] == opps[i];
      if j < |opps| {
        assert OppIdAt(opps, i) < OppIdAt(opps, j);
      }
    }
  }

  lemma OppsReplace(opps: seq<Opportunity>, next: int, k: nat, o: Opportunity)
    requires OppsOk(opps, next) && k < |opps| && o.id == opps[k].id && OppInvariant(o)
    ensures OppsOk(opps[k := o], next)
  {
    var t := opps[k := o];
    forall i, j | 0 <= i < j < |t|
      ensures OppIdAt(t, i) < OppIdAt(t, j)
    {
      assert OppIdAt(opps, i) < OppIdAt(opps, j);
    }
  }

  lemma OppsRemove(opps: seq<Opportunity>, next: int, k: nat)
    requires OppsOk(opps, next) && k < |opps|
    ensures OppsOk(opps[..k] + opps[k + 1..], next)
  {
    var t := opps[..k] + opps[k + 1..];
    forall i | 0 <= i < |t|
      ensures t[i] == opps[if i < k then i else i + 1]
    {
    }
    forall i, j | 0 <= i < j < |t|
      ensures OppIdAt(t, i) < OppIdAt(t, j)
    {
      var i' := if i < k then i else i + 1;
      var j' := if j < k then j else j + 1;
      assert OppIdAt(opps, i') < OppIdAt(opps, j');
    }
  }

  lemma ContactsAppend(contacts: seq<Contact>, next: int, c: Contact)
    requires ContactsOk(contacts, next) && c.id == next
    ensures ContactsOk(contacts + [c], next + 1)
  {
    var t := contacts + [c];
    forall i, j | 0 <= i < j < |t|
      ensures ContactIdAt(t, i) < ContactIdAt(t, j)
    {
      assert t[i] == contacts[i];
      if j < |contacts| {
        assert ContactIdAt(contacts, i) < ContactIdAt(contacts, j);
      }
    }
  }

  /** Rows rewritten in place without touching their ids keep the contacts table well-formed. */
  lemma ContactsSameIds(contacts: seq<Contact>, next: int, t: seq<Contact>)
    requires ContactsOk(contacts, next) && |t| == |contacts|
    requires forall i :: 0 <= i < |t| ==> t[i].id == contacts[i].id
    ensures ContactsOk(t, next)
  {
    forall i, j | 0 <= i < j < |t|
      ensures ContactIdAt(t, i) < ContactIdAt(t, j)
    {
      assert ContactIdAt(contacts, i) < ContactIdAt(contacts, j);
    }
  }

  lemma LogAppend(log: seq<ActivityRow>, next: int, row: ActivityRow)
    requires LogOk(log, next) && row.id == next
    ensures LogOk(log + [row], next + 1)
  {
    var t := log + [row];
    forall i, j | 0 <= i < j < |t|
      ensures RowIdAt(t, i) < RowIdAt(t, j)
    {
      assert t[i] == log[i];
      if j < |log| {
        assert RowIdAt(log, i) < RowIdAt(log, j);
      }
    }
  }

  /** Dropping the newest row leaves a well-formed log below that row's id. */
  lemma LogInit(log: seq<ActivityRow>, next: int)
    requires LogOk(log, next) && log != []
    ensures LogOk(log[..|log| - 1], log[|log| - 1].id)
  {
    var n := |log| - 1;
    var init := log[..n];
    forall i, j | 0 <= i < j < |init|
      ensures RowIdAt(init, i) < RowIdAt(init, j)
    {
      assert RowIdAt(log, i) < RowIdAt(log, j);
    }
    forall i | 0 <= i < |init|
      ensures init[i].id < log[n].id
    {
      assert RowIdAt(log, i) < RowIdAt(log, n);
    }
  }

  /** Dropping the newest contact leaves a well-formed table below that contact's id. */
  lemma ContactsInit(contacts: seq<Contact>, next: int)
    requires ContactsOk(contacts, next) && contacts != []
    ensures ContactsOk(contacts[..|contacts| - 1], contacts[|contacts| - 1].id)
  {
    var n := |contacts| - 1;
    var init := contacts[..n];
    forall i, j | 0 <= i < j < |init|
      ensures ContactIdAt(init, i) < ContactIdAt(init, j)
    {
      assert ContactIdAt(contacts, i) < ContactIdAt(contacts, j);
    }
    forall i | 0 <= i < |init|
      ensures init[i].id < contacts[n].id
    {
      assert ContactIdAt(contacts, i) < ContactIdAt(contacts, n);
    }
  }

  /** Dropping the oldest contact leaves a well-formed table whose ids are all above that contact's. */
  lemma ContactsTail(contacts: seq<Contact>, next: int)
    requires ContactsOk(contacts, next) && contacts != []
    ensures ContactsOk(contacts[1..], next)
    ensures forall i :: 0 <= i < |contacts| - 1 ==> contacts[1..][i].id > contacts[0].id
  {
    var tail := contacts[1..];
    forall i, j | 0 <= i < j < |tail|
      ensures ContactIdAt(tail, i) < ContactIdAt(tail, j)
    {
      assert ContactIdAt(contacts, i + 1) < ContactIdAt(contacts, j + 1);
    }
    forall i | 0 <= i < |tail|
      ensures tail[i].id < next && tail[i].id > contacts[0].id
    {
      assert ContactIdAt(contacts, 0) < ContactIdAt(contacts, i + 1);
    }
  }

  /** The database: three tables, their id counters and the json codec used for JSON columns. */
  class Store {
    var opps: seq<Opportunity>
    var contacts: seq<Contact>
    var log: seq<ActivityRow>
    var nextOppId: int
    var nextContactId: int
    var nextActivityId: int
    const codec: JsonCodec

    ghost predicate Valid()
      reads this
    {
      OppsOk(opps, nextOppId) && ContactsOk(contacts, nextContactId) && LogOk(log, nextActivityId)
    }

    /** A fresh, empty database. */
    constructor (codec: JsonCodec)
      ensures Valid()
      ensures opps == [] && contacts == [] && log == []
      ensures this.codec == codec
    {
      this.codec := codec;
      opps, contacts, log := [], [], [];
      nextOppId, nextContactId, nextActivityId := 1, 1, 1;
    }
  }

  /** `create_opportunity`: stores a new row under the next id (models/opportunity.py is not part of this model). */
  method InsertOpportunity(db: Store, o: Opportunity) returns (id: int)
    requires db.Valid() && OppInvariant(o)
    modifies db`opps, db`nextOppId
    ensures db.Valid()
    ensures id == old(db.nextOppId) && db.nextOppId == id + 1
    ensures db.opps == old(db.opps) + [o.(id := id)]
  {
    id := db.nextOppId;
    OppsAppend(db.opps, id, o.(id := id));
    db.opps := db.opps + [o.(id := id)];
    db.nextOppId := id + 1;
  }

  /** `update_opportunity`: replaces the row at index k, keeping its id. */
  method UpdateOpportunity(db: Store, k: nat, o: Opportunity)
    requires db.Valid() && k < |db.opps| && o.id == db.opps[k].id && OppInvariant(o)
    modifies db`opps
    ensures db.Valid()
    ensures db.opps == old(db.opps)[k := o]
  {
    OppsReplace(db.opps, db.nextOppId, k, o);
    db.opps := db.opps[k := o];
  }

  /** `delete_opportunity`: removes the row at index k. */
  method DeleteOpportunity(db: Store, k: nat)
    requires db.Valid() && k < |db.opps|
    modifies db`opps
    ensures db.Valid()
    ensures db.opps == old(db.opps)[..k] + old(db.opps)[k + 1..]
  {
    OppsRemove(db.opps, db.nextOppId, k);
    db.opps := db.opps[..k] + db.opps[k + 1..];
  }
}
