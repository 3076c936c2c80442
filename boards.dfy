/**
 * The `boards` table and its backend functions. The table is a map from id
 * to row; ids are handed out in increasing order, so the creation order the
 * listings sort by is the order of the ids.
 */
module Boards {
  import opened Wrappers
  import opened Access

  /** A row of `boards`; `None` is a field that is not set. */
  datatype BoardRecord = BoardRecord(
    title: string,
    userId: string,
    isArchived: bool,
    content: Option<string>,
    icon: Option<string>,
    isPublished: bool,
    connectedCalendar: Option<string>)

  /** The optional arguments of `update`; `None` is an argument not supplied. */
  datatype BoardPatch = BoardPatch(
    title: Option<string>,
    content: Option<string>,
    icon: Option<string>,
    isPublished: Option<bool>)

  /** `patch(id, rest)`: each supplied field is overwritten, the others are kept. */
  function ApplyPatch(b: BoardRecord, p: BoardPatch): (r: BoardRecord)
    ensures r.title == p.title.GetOr(b.title)
    ensures r.content == (if p.content.Some? then p.content else b.content)
    ensures r.icon == (if p.icon.Some? then p.icon else b.icon)
    ensures r.isPublished == p.isPublished.GetOr(b.isPublished)
    ensures r.userId == b.userId && r.isArchived == b.isArchived && r.connectedCalendar == b.connectedCalendar
  {
    b.(title := p.title.GetOr(b.title),
       content := if p.content.Some? then p.content else b.content,
       icon := if p.icon.Some? then p.icon else b.icon,
       isPublished := p.isPublished.GetOr(b.isPublished))
  }

  /** An empty patch changes nothing, and applying a patch twice is applying it once. */
  lemma ApplyPatchIdempotent(b: BoardRecord, p: BoardPatch)
    ensures ApplyPatch(b, BoardPatch(None, None, None, None)) == b
    ensures ApplyPatch(ApplyPatch(b, p), p) == ApplyPatch(b, p)
  {
  }

  function OwnerOf(rows: map<nat, BoardRecord>, id: nat): (o: Option<string>)
    ensures o.None? <==> id !in rows
    ensures o.Some? ==> o.value == rows[id].userId
  {
    if id in rows then Some(rows[id].userId) else None
  }

  /** What the read rule needs of row `id`: its owner and its two flags. */
  function VisibilityOf(rows: map<nat, BoardRecord>, id: nat): (v: Option<Visibility>)
    ensures v.None? <==> id !in rows
    ensures v.Some? ==> v.value == Visibility(rows[id].userId, rows[id].isPublished, rows[id].isArchived)
  {
    if id in rows then Some(Visibility(rows[id].userId, rows[id].isPublished, rows[id].isArchived)) else None
  }

  /**
   * The ids below `n` of `user`'s rows with the given archive flag, newest
   * first: the `by_user` index, the `isArchived` filter and `order("desc")`.
   */
  function Listed(rows: map<nat, BoardRecord>, n: nat, user: string, archived: bool): (r: seq<nat>)
    ensures forall i :: 0 <= i < |r| ==> r[i] < n
    ensures forall i, j :: 0 <= i < j < |r| ==> r[i] > r[j]
    ensures forall k :: k in r <==> k < n && k in rows && rows[k].userId == user && rows[k].isArchived == archived
  {
    if n == 0 then []
    else
      var rest := Listed(rows, n - 1, user, archived);
      if n - 1 in rows && rows[n - 1].userId == user && rows[n - 1].isArchived == archived then [n - 1] + rest else rest
  }

  /** A board is listed in the sidebar or in the trash of its owner, never both. */
  lemma SidebarOrTrash(rows: map<nat, BoardRecord>, n: nat, id: nat)
    requires id < n && id in rows
    ensures id in Listed(rows, n, rows[id].userId, false) <==> !rows[id].isArchived
    ensures id in Listed(rows, n, rows[id].userId, true) <==> rows[id].isArchived
  {
  }

  class BoardStore {
    var rows: map<nat, BoardRecord>
    /** The id the next insert receives. */
    var nextId: nat

    /** Every id in use was handed out. */
    predicate Valid()
      reads this
    {
      forall id :: id in rows ==> id < nextId
    }

    constructor()
      ensures rows == map[] && nextId == 0 && Valid()
    {
      rows := map[];
      nextId := 0;
    }

    /** `create`: a private, unarchived board owned by the caller. */
    method Create(identity: Option<string>, title: string) returns (r: Result<nat, Failure>)
      requires Valid()
      modifies this
      ensures Valid()
      ensures identity.None? ==> r == Err(NotAuthenticated) && rows == old(rows) && nextId == old(nextId)
      ensures identity.Some? ==> r == Ok(old(nextId)) && old(nextId) !in old(rows) && nextId == old(nextId) + 1
      ensures identity.Some? ==> rows == old(rows)[old(nextId) := BoardRecord(title, identity.value, false, None, None, false, None)]
    {
      if identity.None? {
        return Err(NotAuthenticated);
      }
      var id := nextId;
      rows := rows[id := BoardRecord(title, identity.value, false, None, None, false, None)];
      nextId := nextId + 1;
      return Ok(id);
    }

    /** `getById`. */
    method GetById(identity: Option<string>, id: nat) returns (r: Result<BoardRecord, Failure>)
      ensures r.Ok? <==> ReadCheck(identity, VisibilityOf(rows, id)).None?
      ensures r.Ok? ==> id in rows && r.value == rows[id]
      ensures r.Err? ==> Some(r.error) == ReadCheck(identity, VisibilityOf(rows, id))
    {
      var failure := ReadCheck(identity, VisibilityOf(rows, id));
      if failure.Some? {
        return Err(failure.value);
      }
      return Ok(rows[id]);
    }

    /** `getSidebar`: the caller's boards that are not archived, newest first. */
    method GetSidebar(identity: Option<string>) returns (r: Result<seq<nat>, Failure>)
      ensures identity.None? ==> r == Err(NotAuthenticated)
      ensures identity.Some? ==> r == Ok(Listed(rows, nextId, identity.value, false))
    {
      if identity.None? {
        return Err(NotAuthenticated);
      }
      return Ok(Listed(rows, nextId, identity.value, false));
    }

    /** `getTrash`: the caller's archived boards, newest first. */
    method GetTrash(identity: Option<string>) returns (r: Result<seq<nat>, Failure>)
      ensures identity.None? ==> r == Err(NotAuthenticated)
      ensures identity.Some? ==> r == Ok(Listed(rows, nextId, identity.value, true))
    {
      if identity.None? {
        return Err(NotAuthenticated);
      }
      return Ok(Listed(rows, nextId, identity.value, true));
    }

    /**
     * The shape of every owner-only mutation: when the guard passes, row `id`
     * becomes `next`; when it fails nothing changes.
     */
    method Guarded(identity: Option<string>, id: nat, next: BoardRecord) returns (r: Option<Failure>)
      modifies this
      ensures r == OwnerCheck(identity, OwnerOf(old(rows), id))
      ensures r.None? ==> id in old(rows) && rows == old(rows)[id := next]
      ensures r.Some? ==> rows == old(rows)
      ensures nextId == old(nextId)
    {
      r := OwnerCheck(identity, OwnerOf(rows, id));
      if r.None? {
        rows := rows[id := next];
      }
    }

    /** `archive`: sets `isArchived`, nothing else. */
    method Archive(identity: Option<string>, id: nat) returns (r: Option<Failure>)
      requires Valid()
      modifies this
      ensures Valid()
      ensures r == OwnerCheck(identity, OwnerOf(old(rows), id))
      ensures r.None? ==> rows == old(rows)[id := old(rows)[id].(isArchived := true)]
      ensures r.Some? ==> rows == old(rows)
      ensures nextId == old(nextId)
    {
      var next := if id in rows then rows[id].(isArchived := true) else BoardRecord("", "", true, None, None, false, None);
      r := Guarded(identity, id, next);
    }

    /** `restore`: clears `isArchived`, nothing else. */
    method Restore(identity: Option<string>, id: nat) returns (r: Option<Failure>)
      requires Valid()
      modifies this
      ensures Valid()
      ensures r == OwnerCheck(identity, OwnerOf(old(rows), id))
      ensures r.None? ==> rows == old(rows)[id := old(rows)[id].(isArchived := false)]
      ensures r.Some? ==> rows == old(rows)
      ensures nextId == old(nextId)
    {
      var next := if id in rows then rows[id].(isArchived := false) else BoardRecord("", "", false, None, None, false, None);
      r := Guarded(identity, id, next);
    }

    /** `update`: patches the supplied fields among title, content, icon and isPublished. */
    method Update(identity: Option<string>, id: nat, patch: BoardPatch) returns (r: Option<Failure>)
      requires Valid()
      modifies this
      ensures Valid()
      ensures r == OwnerCheck(identity, OwnerOf(old(rows), id))
      ensures r.None? ==> rows == old(rows)[id := ApplyPatch(old(rows)[id], patch)]
      ensures r.Some? ==> rows == old(rows)
      ensures nextId == old(nextId)
    {
      var next := if id in rows then ApplyPatch(rows[id], patch) else BoardRecord("", "", false, None, None, false, None);
      r := Guarded(identity, id, next);
    }

    /** `removeIcon`: unsets `icon`, nothing else. */
    method RemoveIcon(identity: Option<string>, id: nat) returns (r: Option<Failure>)
      requires Valid()
      modifies this
      ensures Valid()
      ensures r == OwnerCheck(identity, OwnerOf(old(rows), id))
      ensures r.None? ==> rows == old(rows)[id := old(rows)[id].(icon := None)]
      ensures r.Some? ==> rows == old(rows)
      ensures nextId == old(nextId)
    {
      var next := if id in rows then rows[id].(icon := None) else BoardRecord("", "", false, None, None, false, None);
      r := Guarded(identity, id, next);
    }

    /** `remove`: deletes the row. */
    method Remove(identity: Option<string>, id: nat) returns (r: Option<Failure>)
      requires Valid()
      modifies this
      ensures Valid()
      ensures r == OwnerCheck(identity, OwnerOf(old(rows), id))
      ensures r.None? ==> rows == old(rows) - {id}
      ensures r.Some? ==> rows == old(rows)
      ensures nextId == old(nextId)
    {
      r := OwnerCheck(identity, OwnerOf(rows, id));
      if r.None? {
        rows := rows - {id};
      }
    }
  }

  /**
   * Archiving moves a board from its owner's sidebar to the trash, restoring
   * moves it back, and neither touches another board's listing.
   */
  lemma ArchiveMovesToTrash(rows: map<nat, BoardRecord>, n: nat, id: nat, user: string, k: nat)
    requires id < n && id in rows && rows[id].userId == user
    ensures var a := rows[id := rows[id].(isArchived := true)];
      id in Listed(a, n, user, true) && id !in Listed(a, n, user, false)
    ensures var s := rows[id := rows[id].(isArchived := false)];
      id in Listed(s, n, user, false) && id !in Listed(s, n, user, true)
    ensures k != id ==> var a := rows[id := rows[id].(isArchived := true)];
      (k in Listed(a, n, user, false) <==> k in Listed(rows, n, user, false)) &&
      (k in Listed(a, n, user, true) <==> k in Listed(rows, n, user, true))
  {
  }
}
