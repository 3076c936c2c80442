/**
 * The `calendars` table and its two backend functions, `create` and
 * `getById`. Ids are handed out in increasing order.
 */
module Calendars {
  import opened Wrappers
  import opened Access

  /** A row of `calendars`; `None` is a field that is not set. */
  datatype CalendarRecord = CalendarRecord(
    title: string,
    userId: string,
    newCalendar: Option<nat>,
    icon: Option<string>,
    isArchived: bool,
    isPublished: bool,
    content: Option<string>)

  /** What the read rule needs of row `id`: its owner and its two flags. */
  function VisibilityOf(rows: map<nat, CalendarRecord>, id: nat): (v: Option<Visibility>)
    ensures v.None? <==> id !in rows
    ensures v.Some? ==> v.value == Visibility(rows[id].userId, rows[id].isPublished, rows[id].isArchived)
  {
    if id in rows then Some(Visibility(rows[id].userId, rows[id].isPublished, rows[id].isArchived)) else None
  }

  /** The row `create` inserts: private, not archived, no optional field set. */
  function NewCalendar(title: string, user: string): CalendarRecord {
    CalendarRecord(title, user, None, None, false, false, None)
  }

  /** A calendar just created can be read by its creator and by nobody else. */
  lemma NewCalendarIsPrivate(title: string, user: string, identity: Option<string>)
    ensures var c := NewCalendar(title, user);
      ReadCheck(identity, Some(Visibility(c.userId, c.isPublished, c.isArchived))).None? <==> identity == Some(user)
  {
    ReadAllowed(identity, Some(Visibility(user, false, false)));
  }

  class CalendarStore {
    var rows: map<nat, CalendarRecord>
    /** The id the next insert receives. */
    var nextId: nat

    /** Every id in use was handed out. */
    predicate Valid()
      reads this
    {
      forall id :: id in rows ==> id < nextId
    }

    constructor()
      ensures rows == map[] && nextId == 0 && Valid()
    {
      rows := map[];
      nextId := 0;
    }

    /** `create`: inserts a private calendar owned by the caller. */
    method Create(identity: Option<string>, title: string) returns (r: Result<nat, Failure>)
      requires Valid()
      modifies this
      ensures Valid()
      ensures identity.None? ==> r == Err(NotAuthenticated) && rows == old(rows) && nextId == old(nextId)
      ensures identity.Some? ==> r == Ok(old(nextId)) && old(nextId) !in old(rows) && nextId == old(nextId) + 1
      ensures identity.Some? ==> rows == old(rows)[old(nextId) := NewCalendar(title, identity.value)]
    {
      if identity.None? {
        return Err(NotAuthenticated);
      }
      var id := nextId;
      rows := rows[id := NewCalendar(title, identity.value)];
      nextId := nextId + 1;
      return Ok(id);
    }

    /** `getById`: the row when the read rule allows it, else the rule's failure. */
    method GetById(identity: Option<string>, id: nat) returns (r: Result<CalendarRecord, Failure>)
      ensures r.Ok? <==> id in rows && ((rows[id].isPublished && !rows[id].isArchived) || identity == Some(rows[id].userId))
      ensures r.Ok? ==> r.value == rows[id]
      ensures r.Err? ==> Some(r.error) == ReadCheck(identity, VisibilityOf(rows, id))
    {
      ReadAllowed(identity, VisibilityOf(rows, id));
      var failure := ReadCheck(identity, VisibilityOf(rows, id));
      if failure.Some? {
        return Err(failure.value);
      }
      return Ok(rows[id]);
    }
  }
}
