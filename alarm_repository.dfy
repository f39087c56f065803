/**
  The alarm store (src/repositories/alarm.repository.ts): the "alarms" collection as a
  sequence of records in insertion order, each with its own `_id`. The queries are the
  first-match and filter functions below; the methods of AlarmRepository read or replace
  the collection exactly as `insertOne`, `findOne`, `find`, `updateOne` with `$set` and
  `deleteOne` do.
*/
module AlarmStore {
  import opened Wrappers
  import opened AlarmModel

  // Queries over a collection

  /** The first record satisfying p, as `findOne` and `Array.prototype.find` return it */
  function Find(s: seq<Alarm>, p: Alarm -> bool): (r: Option<Alarm>)
    ensures r.None? <==> forall i :: 0 <= i < |s| ==> !p(s[i])
    ensures r.Some? ==> r.value in s && p(r.value)
  {
    if s == [] then None
    else if p(s[0]) then Some(s[0])
    else Find(s[1..], p)
  }

  /** The records satisfying p, in collection order, as `find(...).toArray()` lists them */
  function Filter(s: seq<Alarm>, p: Alarm -> bool): (r: seq<Alarm>)
    ensures |r| <= |s|
  {
    if s == [] then [] else (if p(s[0]) then [s[0]] else []) + Filter(s[1..], p)
  }

  /** Every record carries an `_id`, and no two share one. */
  predicate UniqueIds(s: seq<Alarm>) {
    && (forall i :: 0 <= i < |s| ==> s[i].id.Some?)
    && (forall i, j :: 0 <= i < j < |s| ==> s[i].id != s[j].id)
  }

  function FindById(s: seq<Alarm>, id: string): Option<Alarm> {
    Find(s, (a: Alarm) => a.id == Some(id))
  }

  function FindByCronJobId(s: seq<Alarm>, cronJobId: int): Option<Alarm> {
    Find(s, (a: Alarm) => a.cronJobId == Some(cronJobId))
  }

  function ByUser(s: seq<Alarm>, userId: string): seq<Alarm> {
    Filter(s, (a: Alarm) => a.userId == userId)
  }

  function ActiveAlarms(s: seq<Alarm>): seq<Alarm> {
    Filter(s, (a: Alarm) => a.active)
  }

  /** `$set: { ...updates, updatedAt: new Date() }` on one record: every field the patch
      gives is overwritten, updatedAt becomes now, and nothing else changes. */
  function ApplyPatch(a: Alarm, p: AlarmPatch, now: int): (r: Alarm)
    ensures r.id == a.id && r.userId == a.userId && r.description == a.description
    ensures r.createdAt == a.createdAt && r.updatedAt == now
    ensures r.name == (if p.name.Some? then p.name.value else a.name)
    ensures r.message == (if p.message.Some? then p.message else a.message)
    ensures r.schedule == (if p.schedule.Some? then p.schedule.value else a.schedule)
    ensures r.cronJobId == (if p.cronJobId.Some? then p.cronJobId else a.cronJobId)
    ensures r.active == (if p.active.Some? then p.active.value else a.active)
  {
    a.(name := p.name.GetOr(a.name),
       message := if p.message.Some? then p.message else a.message,
       schedule := p.schedule.GetOr(a.schedule),
       cronJobId := if p.cronJobId.Some? then p.cronJobId else a.cronJobId,
       active := p.active.GetOr(a.active),
       updatedAt := now)
  }

  /** updateOne on `_id`: the record with that id is patched, every other one is kept. */
  function PatchById(s: seq<Alarm>, id: string, p: AlarmPatch, now: int): (r: seq<Alarm>)
    ensures |r| == |s|
    ensures forall i :: 0 <= i < |s| ==> r[i] == if s[i].id == Some(id) then ApplyPatch(s[i], p, now) else s[i]
  {
    if s == [] then []
    else [if s[0].id == Some(id) then ApplyPatch(s[0], p, now) else s[0]] + PatchById(s[1..], id, p, now)
  }

  /** deleteOne on `_id` */
  function RemoveId(s: seq<Alarm>, id: string): seq<Alarm> {
    Filter(s, (a: Alarm) => a.id != Some(id))
  }

  /** What deactivateAlarm sets besides updatedAt */
  const DeactivatePatch: AlarmPatch := EmptyPatch.(active := Some(false))

  // Properties of the queries

  /** A record is listed by the filter exactly when it is in the collection and passes. */
  lemma {:induction false} FilterMembers(s: seq<Alarm>, p: Alarm -> bool, a: Alarm)
    ensures a in Filter(s, p) <==> a in s && p(a)
    decreases |s|
  {
    if s != [] {
      FilterMembers(s[1..], p, a);
      assert a in s <==> a == s[0] || a in s[1..];
    }
  }

  /** The lookup finds the first record that passes. */
  lemma {:induction false} FindFirst(s: seq<Alarm>, p: Alarm -> bool, i: int)
    requires 0 <= i < |s| && p(s[i])
    requires forall j :: 0 <= j < i ==> !p(s[j])
    ensures Find(s, p) == Some(s[i])
    decreases i
  {
    if i > 0 {
      FindFirst(s[1..], p, i - 1);
    }
  }

  /** Filtering a concatenation filters each part: the order of the records is kept. */
  lemma {:induction false} FilterAppend(s: seq<Alarm>, t: seq<Alarm>, p: Alarm -> bool)
    ensures Filter(s + t, p) == Filter(s, p) + Filter(t, p)
    decreases |s|
  {
    if s == [] {
      assert s + t == t;
    } else {
      var head := if p(s[0]) then [s[0]] else [];
      assert (s + t)[0] == s[0];
      assert (s + t)[1..] == s[1..] + t;
      assert Filter(s + t, p) == head + Filter(s[1..] + t, p);
      FilterAppend(s[1..], t, p);
      assert Filter(s, p) == head + Filter(s[1..], p);
    }
  }

  /** A filter that every record passes keeps the collection as it is. */
  lemma {:induction false} FilterAll(s: seq<Alarm>, p: Alarm -> bool)
    requires forall i :: 0 <= i < |s| ==> p(s[i])
    ensures Filter(s, p) == s
    decreases |s|
  {
    if s != [] {
      FilterAll(s[1..], p);
    }
  }

  /** In a collection with distinct ids, the lookup by id finds the one record with it. */
  lemma FindByIdAt(s: seq<Alarm>, i: int)
    requires UniqueIds(s) && 0 <= i < |s|
    ensures FindById(s, s[i].id.value) == Some(s[i])
  {
    var r := FindById(s, s[i].id.value);
    assert r.Some?;
    var k :| 0 <= k < |s| && s[k] == r.value;
    assert k == i;
  }

  /** A record appended under a new id is found by it, and no other lookup changes. */
  lemma {:induction false} FindAppend(s: seq<Alarm>, a: Alarm, id: string)
    ensures FindById(s + [a], id) == if FindById(s, id).Some? then FindById(s, id)
                                     else if a.id == Some(id) then Some(a) else None
    decreases |s|
  {
    if s != [] {
      assert (s + [a])[1..] == s[1..] + [a];
      FindAppend(s[1..], a, id);
    }
  }

  /** Appending a record with a new id keeps the ids distinct. */
  lemma AppendUnique(s: seq<Alarm>, a: Alarm)
    requires UniqueIds(s) && a.id.Some? && FindById(s, a.id.value).None?
    ensures UniqueIds(s + [a])
  {
    var t := s + [a];
    forall i, j | 0 <= i < j < |t|
      ensures t[i].id != t[j].id
    {
      if j == |s| {
        assert t[i] == s[i] && t[i].id != Some(a.id.value);
      } else {
        assert t[i] == s[i] && t[j] == s[j];
      }
    }
  }

  /** An update of an absent id leaves the collection as it is. */
  lemma PatchAbsent(s: seq<Alarm>, id: string, p: AlarmPatch, now: int)
    requires FindById(s, id).None?
    ensures PatchById(s, id, p, now) == s
  {
    var r := PatchById(s, id, p, now);
    forall i | 0 <= i < |s|
      ensures r[i] == s[i]
    {
      assert s[i].id != Some(id);
    }
  }

  /** Updating the record just appended patches it and leaves the rest alone. */
  lemma PatchLast(s: seq<Alarm>, a: Alarm, p: AlarmPatch, now: int)
    requires a.id.Some? && FindById(s, a.id.value).None?
    ensures PatchById(s + [a], a.id.value, p, now) == s + [ApplyPatch(a, p, now)]
  {
    var t := s + [a];
    var r := PatchById(t, a.id.value, p, now);
    forall i | 0 <= i < |t|
      ensures r[i] == (s + [ApplyPatch(a, p, now)])[i]
    {
      if i < |s| {
        assert t[i] == s[i] && s[i].id != a.id;
      }
    }
  }

  /** An update keeps every id in its place, so ids stay distinct. */
  lemma PatchUnique(s: seq<Alarm>, id: string, p: AlarmPatch, now: int)
    requires UniqueIds(s)
    ensures UniqueIds(PatchById(s, id, p, now))
  {
    var r := PatchById(s, id, p, now);
    assert forall i :: 0 <= i < |s| ==> r[i].id == s[i].id;
  }

  /** After an update the lookup by that id finds the patched record. */
  lemma PatchFindSame(s: seq<Alarm>, id: string, p: AlarmPatch, now: int)
    requires UniqueIds(s)
    ensures FindById(PatchById(s, id, p, now), id)
         == if FindById(s, id).Some? then Some(ApplyPatch(FindById(s, id).value, p, now)) else None
  {
    if FindById(s, id).Some? {
      var k :| 0 <= k < |s| && s[k] == FindById(s, id).value && s[k].id == Some(id);
      PatchUnique(s, id, p, now);
      FindByIdAt(PatchById(s, id, p, now), k);
    } else {
      PatchAbsent(s, id, p, now);
    }
  }

  /** ... and every lookup by another id finds what it found before. */
  lemma PatchFindOther(s: seq<Alarm>, id: string, p: AlarmPatch, now: int, other: string)
    requires UniqueIds(s) && other != id
    ensures FindById(PatchById(s, id, p, now), other) == FindById(s, other)
  {
    var r := PatchById(s, id, p, now);
    PatchUnique(s, id, p, now);
    if FindById(s, other).Some? {
      var k :| 0 <= k < |s| && s[k] == FindById(s, other).value && s[k].id == Some(other);
      FindByIdAt(r, k);
      FindByIdAt(s, k);
    } else {
      assert forall i :: 0 <= i < |s| ==> r[i].id == s[i].id;
    }
  }

  /** Filtering keeps the ids distinct. */
  lemma {:induction false} FilterUnique(s: seq<Alarm>, q: Alarm -> bool)
    requires UniqueIds(s)
    ensures UniqueIds(Filter(s, q))
    decreases |s|
  {
    if s != [] {
      var t := s[1..];
      assert forall i :: 0 <= i < |t| ==> t[i] == s[i + 1];
      FilterUnique(t, q);
      var f := Filter(t, q);
      if q(s[0]) {
        var r := [s[0]] + f;
        forall j | 0 < j < |r|
          ensures r[0].id != r[j].id
        {
          assert r[j] == f[j - 1];
          FilterMembers(t, q, r[j]);
          var m :| 0 <= m < |t| && t[m] == r[j];
          assert s[m + 1] == r[j];
        }
        assert forall i, j :: 0 < i < j < |r| ==> r[i] == f[i - 1] && r[j] == f[j - 1];
      }
    }
  }

  /** Dropping records that the lookup would pass over does not change what it finds. */
  lemma {:induction false} FindFilter(s: seq<Alarm>, q: Alarm -> bool, p: Alarm -> bool)
    requires forall a :: p(a) ==> q(a)
    ensures Find(Filter(s, q), p) == Find(s, p)
    decreases |s|
  {
    if s != [] {
      FindFilter(s[1..], q, p);
      var f := Filter(s, q);
      if q(s[0]) {
        assert f == [s[0]] + Filter(s[1..], q);
        assert f[0] == s[0] && f[1..] == Filter(s[1..], q);
      } else {
        assert !p(s[0]);
        assert f == Filter(s[1..], q);
      }
    }
  }

  /** Deleting keeps the ids distinct; the deleted id is no longer found, and every other
      lookup by id finds what it found before. */
  lemma RemoveFind(s: seq<Alarm>, id: string, other: string)
    requires UniqueIds(s)
    ensures UniqueIds(RemoveId(s, id))
    ensures FindById(RemoveId(s, id), id).None?
    ensures other != id ==> FindById(RemoveId(s, id), other) == FindById(s, other)
  {
    var q := (a: Alarm) => a.id != Some(id);
    FilterUnique(s, q);
    var r := RemoveId(s, id);
    forall i | 0 <= i < |r|
      ensures r[i].id != Some(id)
    {
      FilterMembers(s, q, r[i]);
    }
    if other != id {
      FindFilter(s, q, (a: Alarm) => a.id == Some(other));
    }
  }

  /** Lookups by owner and by active flag list exactly the matching records. */
  lemma ByUserExactly(s: seq<Alarm>, userId: string, a: Alarm)
    ensures a in ByUser(s, userId) <==> a in s && a.userId == userId
    ensures a in ActiveAlarms(s) <==> a in s && a.active
  {
    FilterMembers(s, (a: Alarm) => a.userId == userId, a);
    FilterMembers(s, (a: Alarm) => a.active, a);
  }

  /** deactivateAlarm turns the flag off and refreshes updatedAt, and keeps every other field. */
  lemma DeactivateKeeps(a: Alarm, now: int)
    ensures ApplyPatch(a, DeactivatePatch, now) == a.(active := false, updatedAt := now)
  {
  }

  // The store itself

  datatype StoreError = DuplicateKey(id: string)

  class AlarmRepository {
    var alarms: seq<Alarm>

    ghost predicate Valid()
      reads this
    {
      UniqueIds(alarms)
    }

    constructor ()
      ensures Valid() && alarms == []
    {
      alarms := [];
    }

    /** insertOne: the driver keeps the record's own `_id` or assigns `generatedId`, and a
        taken id is a duplicate-key error that stores nothing. */
    method CreateAlarm(alarm: Alarm, generatedId: string) returns (r: Result<Alarm, StoreError>)
      requires Valid()
      modifies this
      ensures Valid()
      ensures var id := if alarm.id.Some? then alarm.id.value else generatedId;
        if FindById(old(alarms), id).Some? then r == Err(DuplicateKey(id)) && alarms == old(alarms)
        else r == Ok(alarm.(id := Some(id))) && alarms == old(alarms) + [r.value]
    {
      var id := if alarm.id.Some? then alarm.id.value else generatedId;
      if FindById(alarms, id).Some? {
        r := Err(DuplicateKey(id));
      } else {
        var stored := alarm.(id := Some(id));
        AppendUnique(alarms, stored);
        alarms := alarms + [stored];
        r := Ok(stored);
      }
    }

    method GetAlarmById(id: string) returns (r: Option<Alarm>)
      requires Valid()
      ensures r.Some? ==> r.value in alarms && r.value.id == Some(id)
      ensures r.None? <==> forall i :: 0 <= i < |alarms| ==> alarms[i].id != Some(id)
      ensures r == FindById(alarms, id)
    {
      r := FindById(alarms, id);
    }

    method GetAlarmByCronJobId(cronJobId: int) returns (r: Option<Alarm>)
      ensures r.Some? ==> r.value in alarms && r.value.cronJobId == Some(cronJobId)
      ensures r.None? <==> forall i :: 0 <= i < |alarms| ==> alarms[i].cronJobId != Some(cronJobId)
      ensures r == FindByCronJobId(alarms, cronJobId)
    {
      r := FindByCronJobId(alarms, cronJobId);
    }

    method GetAlarmsByUserId(userId: string) returns (r: seq<Alarm>)
      ensures forall a :: a in r <==> a in alarms && a.userId == userId
      ensures r == ByUser(alarms, userId)
    {
      forall a: Alarm {
        ByUserExactly(alarms, userId, a);
      }
      r := ByUser(alarms, userId);
    }

    method GetActiveAlarms() returns (r: seq<Alarm>)
      ensures forall a :: a in r <==> a in alarms && a.active
      ensures r == ActiveAlarms(alarms)
    {
      forall a: Alarm {
        ByUserExactly(alarms, "", a);
      }
      r := ActiveAlarms(alarms);
    }

    method UpdateAlarm(id: string, updates: AlarmPatch, now: int)
      requires Valid()
      modifies this
      ensures Valid()
      ensures alarms == PatchById(old(alarms), id, updates, now)
    {
      PatchUnique(alarms, id, updates, now);
      alarms := PatchById(alarms, id, updates, now);
    }

    method DeleteAlarm(id: string)
      requires Valid()
      modifies this
      ensures Valid()
      ensures alarms == RemoveId(old(alarms), id)
    {
      RemoveFind(alarms, id, id);
      alarms := RemoveId(alarms, id);
    }

    method DeactivateAlarm(id: string, now: int)
      requires Valid()
      modifies this
      ensures Valid()
      ensures alarms == PatchById(old(alarms), id, DeactivatePatch, now)
    {
      PatchUnique(alarms, id, DeactivatePatch, now);
      alarms := PatchById(alarms, id, DeactivatePatch, now);
    }
  }
}
