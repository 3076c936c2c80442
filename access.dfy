/**
 * The authorisation decisions the backend functions share. The caller's
 * identity is its subject (`identity.subject`), absent for an anonymous
 * caller; a table row is looked up by id and may be missing. Every failure is
 * a thrown `Error` with a fixed message.
 */
module Access {
  import opened Wrappers

  datatype Failure = NotAuthenticated | NotFound | Unauthorized | IncorrectPassword

  /** The message each failure throws. */
  function Message(f: Failure): (m: string)
    ensures m != ""
  {
    match f
    case NotAuthenticated => "Not authenticated"
    case NotFound => "Not found"
    case Unauthorized => "Unauthorized"
    case IncorrectPassword => "incorrect password"
  }

  /** Distinct failures throw distinct messages. */
  lemma MessagesDistinct(f: Failure, g: Failure)
    ensures Message(f) == Message(g) <==> f == g
  {
  }

  /**
   * The mutation guard: identity first, then the row, then its owner.
   * `owner` is the row's `userId`, `None` when the row is missing.
   */
  function OwnerCheck(identity: Option<string>, owner: Option<string>): (r: Option<Failure>)
    ensures r.None? <==> identity.Some? && owner == identity
    ensures identity.None? ==> r == Some(NotAuthenticated)
    ensures identity.Some? && owner.None? ==> r == Some(NotFound)
    ensures identity.Some? && owner.Some? && owner != identity ==> r == Some(Unauthorized)
  {
    if identity.None? then Some(NotAuthenticated)
    else if owner.None? then Some(NotFound)
    else if owner.value != identity.value then Some(Unauthorized)
    else None
  }

  /** What a row's read rule looks at. */
  datatype Visibility = Visibility(owner: string, isPublished: bool, isArchived: bool)

  /**
   * The read guard of `getById`: the row first; a published row that is not
   * archived is open to anyone; otherwise identity, then ownership.
   */
  function ReadCheck(identity: Option<string>, row: Option<Visibility>): (r: Option<Failure>)
    ensures row.None? ==> r == Some(NotFound)
    ensures row.Some? && row.value.isPublished && !row.value.isArchived ==> r.None?
    ensures row.Some? && !(row.value.isPublished && !row.value.isArchived) ==>
      r == OwnerCheck(identity, Some(row.value.owner))
  {
    match row
    case None => Some(NotFound)
    case Some(v) =>
      if v.isPublished && !v.isArchived then None
      else if identity.None? then Some(NotAuthenticated)
      else if v.owner != identity.value then Some(Unauthorized)
      else None
  }

  /**
   * Reading is allowed exactly for an existing row that is published and not
   * archived, or whose owner is the caller; the owner can always read.
   */
  lemma ReadAllowed(identity: Option<string>, row: Option<Visibility>)
    ensures ReadCheck(identity, row).None? <==>
      row.Some? && ((row.value.isPublished && !row.value.isArchived) || identity == Some(row.value.owner))
    ensures OwnerCheck(identity, if row.Some? then Some(row.value.owner) else None).None? ==> ReadCheck(identity, row).None?
  {
  }
}
