/** models/activity.py: the append-only activity log, its filtered newest-first reads and the row-to-dict view. */
module Activity {
  import opened Wrappers
  import opened Values
  import opened Tables

  /** The default page size of `get_activity_log`. */
  const DefaultLimit: int := 50

  /** The metadata column: the JSON text of a truthy metadata value, NULL for an absent or empty one. */
  function StoredMetadata(codec: JsonCodec, metadata: Value): (r: Option<string>)
    ensures r.Some? <==> Truthy(metadata)
    ensures r.Some? ==> r.value == codec.dumps(metadata)
  {
    if Truthy(metadata) then Some(codec.dumps(metadata)) else None
  }

  /** `log_activity`: appends one row under the next id and returns that id; no existing row changes. */
  method LogActivity(db: Store, kind: ActivityType, description: Option<string>,
                     opportunityId: Option<int>, contactId: Option<int>, metadata: Value, now: int)
    returns (id: int)
    requires db.Valid()
    modifies db`log, db`nextActivityId
    ensures db.Valid()
    ensures id == old(db.nextActivityId) && db.nextActivityId == id + 1
    ensures db.log == old(db.log) + [ActivityRow(id, Entry(kind, description, opportunityId, contactId, StoredMetadata(db.codec, metadata)), now)]
  {
    id := db.nextActivityId;
    var row := ActivityRow(id, Entry(kind, description, opportunityId, contactId, StoredMetadata(db.codec, metadata)), now);
    LogAppend(db.log, id, row);
    db.log := db.log + [row];
    db.nextActivityId := id + 1;
  }

  /** The WHERE clause of `get_activity_log`: no filter, or an equal opportunity id (0 included). */
  predicate Matches(row: ActivityRow, opportunityId: Option<int>) {
    opportunityId.None? || row.entry.opportunityId == opportunityId
  }

  /** `get_activity_log`: the matching rows newest first, at most `limit` of them (a negative LIMIT is no limit in SQLite). */
  function GetActivityLog(log: seq<ActivityRow>, opportunityId: Option<int>, limit: int): (r: seq<ActivityRow>)
    ensures forall k :: 0 <= k < |r| ==> r[k] in log && Matches(r[k], opportunityId)
    ensures limit >= 0 ==> |r| <= limit
  {
    if log == [] || limit == 0 then []
    else
      var last := log[|log| - 1];
      if Matches(last, opportunityId) then [last] + GetActivityLog(log[..|log| - 1], opportunityId, limit - 1)
      else GetActivityLog(log[..|log| - 1], opportunityId, limit)
  }

  /** The matching rows in insertion order. */
  function Matching(log: seq<ActivityRow>, opportunityId: Option<int>): (m: seq<ActivityRow>)
    ensures |m| <= |log|
  {
    if log == [] then []
    else Matching(log[..|log| - 1], opportunityId) + (if Matches(log[|log| - 1], opportunityId) then [log[|log| - 1]] else [])
  }

  function Reverse<T>(s: seq<T>): (r: seq<T>)
    ensures |r| == |s|
  {
    if s == [] then [] else Reverse(s[1..]) + [s[0]]
  }

  /** How many of n rows a LIMIT keeps. */
  function Taken(limit: int, n: nat): (k: nat)
    ensures k <= n
  {
    if limit < 0 || limit > n then n else limit
  }

  /** The read returns exactly the `limit` newest matching rows (all of them when fewer match), newest first. */
  lemma {:induction false} ActivityLogNewest(log: seq<ActivityRow>, opportunityId: Option<int>, limit: int)
    ensures var m := Matching(log, opportunityId);
            GetActivityLog(log, opportunityId, limit) == Reverse(m[|m| - Taken(limit, |m|)..])
  {
    if log != [] && limit != 0 {
      var init := log[..|log| - 1];
      if Matches(log[|log| - 1], opportunityId) {
        ActivityLogNewest(init, opportunityId, limit - 1);
        NewestMatchedStep(log, opportunityId, limit);
      } else {
        ActivityLogNewest(init, opportunityId, limit);
        assert Matching(log, opportunityId) == Matching(init, opportunityId);
      }
    } else {
      assert Taken(limit, |Matching(log, opportunityId)|) == 0;
    }
  }

  /** The step of `ActivityLogNewest` for a matching last row. */
  lemma NewestMatchedStep(log: seq<ActivityRow>, opportunityId: Option<int>, limit: int)
    requires log != [] && limit != 0 && Matches(log[|log| - 1], opportunityId)
    requires var m' := Matching(log[..|log| - 1], opportunityId);
             GetActivityLog(log[..|log| - 1], opportunityId, limit - 1) == Reverse(m'[|m'| - Taken(limit - 1, |m'|)..])
    ensures var m := Matching(log, opportunityId);
            GetActivityLog(log, opportunityId, limit) == Reverse(m[|m| - Taken(limit, |m|)..])
  {
    var init := log[..|log| - 1];
    var last := log[|log| - 1];
    var m' := Matching(init, opportunityId);
    var m := Matching(log, opportunityId);
    var k := Taken(limit, |m|);
    assert m == m' + [last];
    assert GetActivityLog(log, opportunityId, limit) == [last] + GetActivityLog(init, opportunityId, limit - 1);
    assert Taken(limit - 1, |m'|) == k - 1;
    NewestStep(m', last, k);
  }

  lemma NewestStep(older: seq<ActivityRow>, last: ActivityRow, k: nat)
    requires 1 <= k <= |older| + 1
    ensures var m := older + [last];
            Reverse(m[|m| - k..]) == [last] + Reverse(older[|older| - (k - 1)..])
  {
    var m := older + [last];
    var newer := older[|older| - (k - 1)..];
    assert m[|m| - k..] == newer + [last];
    ReverseSnoc(newer, last);
  }

  lemma {:induction false} ReverseSnoc<T>(s: seq<T>, x: T)
    ensures Reverse(s + [x]) == [x] + Reverse(s)
  {
    if s != [] {
      assert (s + [x])[1..] == s[1..] + [x];
      ReverseSnoc(s[1..], x);
    } else {
      assert s + [x] == [x];
    }
  }

  predicate Descending(r: seq<ActivityRow>) {
    forall i, j :: 0 <= i < j < |r| ==> r[i].id > r[j].id
  }

  /** Over a well-formed table the read is strictly newest first: ids decrease along the result. */
  lemma {:induction false} ActivityLogDescending(log: seq<ActivityRow>, next: int, opportunityId: Option<int>, limit: int)
    requires LogOk(log, next)
    ensures Descending(GetActivityLog(log, opportunityId, limit))
  {
    if log != [] && limit != 0 {
      var init := log[..|log| - 1];
      var last := log[|log| - 1];
      LogInit(log, next);
      if Matches(last, opportunityId) {
        ActivityLogDescending(init, last.id, opportunityId, limit - 1);
        var rest := GetActivityLog(init, opportunityId, limit - 1);
        forall x | x in init
          ensures x.id < last.id
        {
          var p :| 0 <= p < |init| && init[p] == x;
        }
        assert forall k :: 0 <= k < |rest| ==> rest[k].id < last.id;
      } else {
        assert GetActivityLog(log, opportunityId, limit) == GetActivityLog(init, opportunityId, limit);
        ActivityLogDescending(init, last.id, opportunityId, limit);
      }
    }
  }

  /** `asdict` of an `ActivityLog` record. */
  function AsDict(row: ActivityRow): map<string, Value> {
    map[
      "id" := Int(row.id),
      "opportunity_id" := FromOptInt(row.entry.opportunityId),
      "contact_id" := FromOptInt(row.entry.contactId),
      "activity_type" := Str(row.entry.kind.Label()),
      "description" := FromOptStr(row.entry.description),
      "metadata" := FromOptStr(row.entry.metadata),
      "created_at" := Int(row.createdAt)
    ]
  }

  /**
   * `ActivityLog.to_dict`: the record's fields, plus `metadata_parsed` when the metadata is truthy,
   * holding the decoded JSON, or an empty object when it does not decode.
   */
  method ToDict(row: ActivityRow, codec: JsonCodec) returns (d: map<string, Value>)
    ensures var base := AsDict(row);
            var parsed := Truthy(Get(base, "metadata", Null));
            && d.Keys == base.Keys + (if parsed then {"metadata_parsed"} else {})
            && (forall k :: k in base ==> d[k] == base[k])
            && (parsed ==> d["metadata_parsed"] == codec.loads(row.entry.metadata.value).GetOr(Obj(map[])))
    ensures "metadata_parsed" in d <==> row.entry.metadata.Some? && row.entry.metadata.value != []
  {
    d := AsDict(row);
    var m := Get(d, "metadata", Null);
    if Truthy(m) {
      var decoded := codec.loads(m.s);
      if decoded.Some? {
        d := d["metadata_parsed" := decoded.value];
      } else {
        d := d["metadata_parsed" := Obj(map[])];
      }
    }
  }
}
