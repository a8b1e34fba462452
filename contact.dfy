/** contact.py: contact records, their defaults, and the UPDATE / SELECT statements built for them. */
module Contacts {
  import opened Wrappers
  import opened Values
  import opened Text
  import opened Tables

  const Pending: string := "Pending"

  /** The row `create_contact` stores: the given fields, status "Pending", no flags, no outreach dates. */
  function NewContact(id: int, opportunityId: Option<int>, fullName: string, title: Option<string>,
                      company: Option<string>, linkedinUrl: Option<string>, email: Option<string>,
                      contactType: Option<string>, notes: Option<string>, now: int): (c: Contact)
    ensures c.responseStatus == Pending
    ensures !c.callCompleted && !c.referralAsked && !c.referralGiven
    ensures c.outreachDay0.None? && c.outreachDay3.None? && c.outreachDay7.None?
    ensures c.id == id && c.opportunityId == opportunityId && c.fullName == fullName
  {
    Contact(id, opportunityId, fullName, title, company, linkedinUrl, email, contactType,
            None, None, None, Pending, false, false, false, notes, now, now)
  }

  /** `create_contact`: appends the new contact under the next id and returns that id. */
  method CreateContact(db: Store, fullName: string, opportunityId: Option<int>, title: Option<string>,
                       company: Option<string>, linkedinUrl: Option<string>, email: Option<string>,
                       contactType: Option<string>, notes: Option<string>, now: int)
    returns (id: int)
    requires db.Valid()
    modifies db`contacts, db`nextContactId
    ensures db.Valid()
    ensures id == old(db.nextContactId) && db.nextContactId == id + 1
    ensures db.contacts == old(db.contacts) + [NewContact(id, opportunityId, fullName, title, company, linkedinUrl, email, contactType, notes, now)]
  {
    id := db.nextContactId;
    var c := NewContact(id, opportunityId, fullName, title, company, linkedinUrl, email, contactType, notes, now);
    ContactsAppend(db.contacts, id, c);
    db.contacts := db.contacts + [c];
    db.nextContactId := id + 1;
  }

  /** `get_contact`: the contact with that id, if any. */
  function GetContact(contacts: seq<Contact>, id: int): (r: Option<Contact>)
    ensures r.Some? <==> exists i :: 0 <= i < |contacts| && contacts[i].id == id
    ensures r.Some? ==> r.value in contacts && r.value.id == id
  {
    var k := FindContact(contacts, id);
    if k.Some? then Some(contacts[k.value]) else None
  }

  /** The keyword arguments the tracker passes to `update_contact`. */
  datatype ContactField = Day0(day: int) | Day3(day: int) | Day7(day: int) | Status(status: string)
  {
    function Column(): (col: string)
      ensures '?' !in col
    {
      match this
      case Day0(_) => "outreach_day0"
      case Day3(_) => "outreach_day3"
      case Day7(_) => "outreach_day7"
      case Status(_) => "response_status"
    }

    function Param(): Value {
      match this
      case Day0(d) => Int(d)
      case Day3(d) => Int(d)
      case Day7(d) => Int(d)
      case Status(s) => Str(s)
    }

    function ApplyTo(c: Contact): Contact {
      match this
      case Day0(d) => c.(outreachDay0 := Some(d))
      case Day3(d) => c.(outreachDay3 := Some(d))
      case Day7(d) => c.(outreachDay7 := Some(d))
      case Status(s) => c.(responseStatus := s)
    }
  }

  /** A statement and its bound parameters. */
  datatype Query = Query(sql: string, params: seq<Value>)

  function Assignments(fields: seq<ContactField>): (r: seq<string>)
    ensures |r| == |fields|
    ensures forall i :: 0 <= i < |fields| ==> r[i] == fields[i].Column() + " = ?"
  {
    if fields == [] then [] else [fields[0].Column() + " = ?"] + Assignments(fields[1..])
  }

  function Params(fields: seq<ContactField>): (r: seq<Value>)
    ensures |r| == |fields|
    ensures forall i :: 0 <= i < |fields| ==> r[i] == fields[i].Param()
  {
    if fields == [] then [] else [fields[0].Param()] + Params(fields[1..])
  }

  /**
   * The statement `update_contact` issues: none for no fields (it returns 0); otherwise one
   * "column = ?" per field in argument order joined by ", ", bound to the values and then the id.
   */
  function UpdateQuery(id: int, fields: seq<ContactField>): (q: Option<Query>)
    ensures q.None? <==> fields == []
    ensures q.Some? ==> q.value.sql == "UPDATE contacts SET " + Join(Assignments(fields), ", ") + " WHERE id = ?"
    ensures q.Some? ==> q.value.params == Params(fields) + [Int(id)]
    ensures q.Some? ==> CountChar(q.value.sql, '?') == |q.value.params|
  {
    if fields == [] then None
    else
      var setClause := Join(Assignments(fields), ", ");
      PlaceholdersInSet(fields);
      UpdateMarks("UPDATE contacts SET ", setClause, " WHERE id = ?");
      Some(Query("UPDATE contacts SET " + setClause + " WHERE id = ?", Params(fields) + [Int(id)]))
  }

  lemma {:induction false} AbsentCount(s: string, c: char)
    requires c !in s
    ensures CountChar(s, c) == 0
  {
    if s != [] {
      assert s[0] != c && c !in s[1..];
      AbsentCount(s[1..], c);
    }
  }

  /** A text made of a placeholder-free prefix and one "?" holds one placeholder. */
  lemma MarkCount(prefix: string, s: string)
    requires '?' !in prefix && s == prefix + "?"
    ensures CountChar(s, '?') == 1
  {
    AbsentCount(prefix, '?');
    CountConcat(prefix, "?", '?');
  }

  /** The text `update_contact` puts around the SET clause: one placeholder, the id's, after it. */
  lemma UpdateMarks(head: string, setClause: string, tail: string)
    requires head == "UPDATE contacts SET " && tail == " WHERE id = ?"
    ensures CountChar(head + setClause + tail, '?') == CountChar(setClause, '?') + 1
  {
    UpdateFrame(head, tail);
    CountConcat3(head, setClause, tail, '?');
  }

  lemma UpdateFrame(head: string, tail: string)
    requires head == "UPDATE contacts SET " && tail == " WHERE id = ?"
    ensures CountChar(head, '?') == 0 && CountChar(tail, '?') == 1
  {
    AbsentCount(head, '?');
    IdMark(tail);
  }

  lemma IdMark(tail: string)
    requires tail == " WHERE id = ?"
    ensures CountChar(tail, '?') == 1
  {
    MarkCount(" WHERE id = ", tail);
  }

  lemma AssignmentMark(f: ContactField, s: string)
    requires s == f.Column() + " = ?"
    ensures CountChar(s, '?') == 1
  {
    assert s == (f.Column() + " = ") + "?";
    MarkCount(f.Column() + " = ", s);
  }

  lemma PlaceholdersInSet(fields: seq<ContactField>)
    ensures CountChar(Join(Assignments(fields), ", "), '?') == |fields|
  {
    var a := Assignments(fields);
    forall k | 0 <= k < |a|
      ensures CountChar(a[k], '?') == 1
    {
      AssignmentMark(fields[k], a[k]);
    }
    AbsentCount(", ", '?');
    CountJoin(a, ", ", '?');
  }

  /** A contact after the SET clause of `update_contact` has run on it, fields applied in order. */
  function ApplyFields(c: Contact, fields: seq<ContactField>): (r: Contact)
    ensures r.id == c.id
    decreases |fields|
  {
    if fields == [] then c else ApplyFields(fields[0].ApplyTo(c), fields[1..])
  }

  /** The contacts table after `UPDATE ... WHERE id = ?`: only the row with that id changes. */
  function UpdatedRows(contacts: seq<Contact>, id: int, fields: seq<ContactField>): (r: seq<Contact>)
    ensures |r| == |contacts|
    ensures forall i :: 0 <= i < |contacts| ==>
              r[i] == (if contacts[i].id == id then ApplyFields(contacts[i], fields) else contacts[i])
  {
    if contacts == [] then []
    else
      var c := contacts[0];
      [if c.id == id then ApplyFields(c, fields) else c] + UpdatedRows(contacts[1..], id, fields)
  }

  /** `update_contact`: with no fields nothing is issued; otherwise the one row with that id is updated. */
  method UpdateContact(db: Store, id: int, fields: seq<ContactField>) returns (q: Option<Query>)
    requires db.Valid()
    modifies db`contacts
    ensures db.Valid()
    ensures q == UpdateQuery(id, fields)
    ensures db.contacts == if fields == [] then old(db.contacts) else UpdatedRows(old(db.contacts), id, fields)
  {
    q := UpdateQuery(id, fields);
    if fields != [] {
      ContactsSameIds(db.contacts, db.nextContactId, UpdatedRows(db.contacts, id, fields));
      db.contacts := UpdatedRows(db.contacts, id, fields);
    }
  }

  /** The WHERE conditions of `list_contacts`: the opportunity filter whenever one is given (0 included), then a non-empty status. */
  function ListConditions(opportunityId: Option<int>, responseStatus: Option<string>): (conds: seq<string>)
    ensures conds == [] <==> opportunityId.None? && (responseStatus.None? || responseStatus.value == "")
    ensures opportunityId.Some? ==> conds[0] == "opportunity_id = ?"
    ensures responseStatus.Some? && responseStatus.value != "" ==> conds[|conds| - 1] == "response_status = ?"
    ensures |conds| <= 2
  {
    (if opportunityId.Some? then ["opportunity_id = ?"] else [])
    + (if responseStatus.Some? && responseStatus.value != "" then ["response_status = ?"] else [])
  }

  /** `list_contacts`: builds the conditions and parameters step by step, then the SELECT. */
  method ListContactsQuery(opportunityId: Option<int>, responseStatus: Option<string>) returns (q: Query)
    ensures var conds := ListConditions(opportunityId, responseStatus);
            q.sql == "SELECT * FROM contacts " + (if conds == [] then "" else "WHERE " + Join(conds, " AND ")) + " ORDER BY created_at DESC"
    ensures q.params == (if opportunityId.Some? then [Int(opportunityId.value)] else [])
                        + (if responseStatus.Some? && responseStatus.value != "" then [Str(responseStatus.value)] else [])
    ensures CountChar(q.sql, '?') == |q.params|
  {
    var conditions: seq<string> := [];
    var params: seq<Value> := [];
    if opportunityId.Some? {
      conditions := conditions + ["opportunity_id = ?"];
      params := params + [Int(opportunityId.value)];
    }
    if responseStatus.Some? && responseStatus.value != "" {
      conditions := conditions + ["response_status = ?"];
      params := params + [Str(responseStatus.value)];
    }
    assert conditions == ListConditions(opportunityId, responseStatus);
    var where := if conditions != [] then "WHERE " + Join(conditions, " AND ") else "";
    PlaceholdersInWhere(conditions);
    SelectMarks("SELECT * FROM contacts ", where, " ORDER BY created_at DESC");
    q := Query("SELECT * FROM contacts " + where + " ORDER BY created_at DESC", params);
  }

  /** The text `list_contacts` puts around the WHERE clause holds no placeholder. */
  lemma SelectMarks(head: string, where: string, tail: string)
    requires head == "SELECT * FROM contacts " && tail == " ORDER BY created_at DESC"
    ensures CountChar(head + where + tail, '?') == CountChar(where, '?')
  {
    SelectFrame(head, tail);
    CountConcat3(head, where, tail, '?');
  }

  lemma SelectFrame(head: string, tail: string)
    requires head == "SELECT * FROM contacts " && tail == " ORDER BY created_at DESC"
    ensures CountChar(head, '?') == 0 && CountChar(tail, '?') == 0
  {
    AbsentCount(head, '?');
    OrderMarks(tail);
  }

  lemma OrderMarks(tail: string)
    requires tail == " ORDER BY created_at DESC"
    ensures CountChar(tail, '?') == 0
  {
    AbsentCount(tail, '?');
  }

  lemma ConditionMark(s: string)
    requires s == "opportunity_id = ?" || s == "response_status = ?"
    ensures CountChar(s, '?') == 1
  {
    if s == "opportunity_id = ?" {
      MarkCount("opportunity_id = ", s);
    } else {
      MarkCount("response_status = ", s);
    }
  }

  /** Each condition of `list_contacts` contributes one placeholder to its WHERE clause. */
  lemma PlaceholdersInWhere(conds: seq<string>)
    requires forall k :: 0 <= k < |conds| ==> conds[k] == "opportunity_id = ?" || conds[k] == "response_status = ?"
    ensures CountChar(if conds != [] then "WHERE " + Join(conds, " AND ") else "", '?') == |conds|
  {
    forall k | 0 <= k < |conds|
      ensures CountChar(conds[k], '?') == 1
    {
      ConditionMark(conds[k]);
    }
    WhereMarks(conds, "WHERE ", " AND ");
  }

  lemma WhereMarks(conds: seq<string>, kw: string, sep: string)
    requires forall k :: 0 <= k < |conds| ==> CountChar(conds[k], '?') == 1
    requires kw == "WHERE " && sep == " AND "
    ensures CountChar(if conds != [] then kw + Join(conds, sep) else "", '?') == |conds|
  {
    AbsentCount(sep, '?');
    CountJoin(conds, sep, '?');
    if conds != [] {
      AbsentCount(kw, '?');
      CountConcat(kw, Join(conds, sep), '?');
    }
  }

  /** Whether a contact satisfies the filters of `list_contacts`. */
  predicate Selected(c: Contact, opportunityId: Option<int>, responseStatus: Option<string>) {
    && (opportunityId.Some? ==> c.opportunityId == opportunityId)
    && (responseStatus.Some? && responseStatus.value != "" ==> c.responseStatus == responseStatus.value)
  }

  /** The rows `list_contacts` returns: the selected contacts, newest first. */
  function ListContacts(contacts: seq<Contact>, opportunityId: Option<int>, responseStatus: Option<string>): (r: seq<Contact>)
    ensures forall k :: 0 <= k < |r| ==> r[k] in contacts && Selected(r[k], opportunityId, responseStatus)
  {
    if contacts == [] then []
    else
      var last := contacts[|contacts| - 1];
      var older := ListContacts(contacts[..|contacts| - 1], opportunityId, responseStatus);
      if Selected(last, opportunityId, responseStatus) then [last] + older else older
  }

  /** Every selected contact is listed. */
  lemma {:induction false} ListContactsComplete(contacts: seq<Contact>, opportunityId: Option<int>, responseStatus: Option<string>, c: Contact)
    requires c in contacts && Selected(c, opportunityId, responseStatus)
    ensures c in ListContacts(contacts, opportunityId, responseStatus)
  {
    var last := contacts[|contacts| - 1];
    if c != last {
      var init := contacts[..|contacts| - 1];
      assert contacts == init + [last];
      ListContactsComplete(init, opportunityId, responseStatus, c);
    }
  }

  /** Contacts in strictly decreasing id order, that is, newest first. */
  predicate NewestFirst(r: seq<Contact>) {
    forall i, j :: 0 <= i < j < |r| ==> r[i].id > r[j].id
  }

  /** Over a well-formed table the listing is strictly newest first: ids decrease along the result. */
  lemma {:induction false} ListContactsNewestFirst(contacts: seq<Contact>, next: int, opportunityId: Option<int>,
                                                   responseStatus: Option<string>)
    requires ContactsOk(contacts, next)
    ensures NewestFirst(ListContacts(contacts, opportunityId, responseStatus))
  {
    if contacts != [] {
      var init := contacts[..|contacts| - 1];
      var last := contacts[|contacts| - 1];
      ContactsInit(contacts, next);
      ListContactsNewestFirst(init, last.id, opportunityId, responseStatus);
      var rest := ListContacts(init, opportunityId, responseStatus);
      forall k | 0 <= k < |rest|
        ensures rest[k].id < last.id
      {
        var p :| 0 <= p < |init| && init[p] == rest[k];
      }
    }
  }

  /** `get_contacts_for_opportunity`: the contacts linked to that opportunity, newest first; [] when there are none. */
  function ContactsForOpportunity(contacts: seq<Contact>, opportunityId: int): (r: seq<Contact>)
    ensures forall k :: 0 <= k < |r| ==> r[k] in contacts && r[k].opportunityId == Some(opportunityId)
    ensures forall c :: c in contacts && c.opportunityId == Some(opportunityId) ==> c in r
    ensures r == [] <==> forall c :: c in contacts ==> c.opportunityId != Some(opportunityId)
  {
    var r := ListContacts(contacts, Some(opportunityId), None);
    forall c | c in contacts && c.opportunityId == Some(opportunityId)
      ensures c in r
    {
      ListContactsComplete(contacts, Some(opportunityId), None, c);
    }
    assert r != [] ==> r[0] in contacts && r[0].opportunityId == Some(opportunityId);
    r
  }
}
