/**
 * The `guestbooks` table: a book belongs to a user and holds a list of
 * comments. Anyone may comment, leaving a password; a comment is removed with
 * its password or by the book's owner; reading a book hides every password.
 * The clock (`new Date().toString()`) and `Math.random()` are parameters.
 */
module Guestbooks {
  import opened Wrappers
  import opened Access
  import opened HexIds

  /** A comment; `password` is `None` once `get` has stripped it. */
  datatype Comment = Comment(name: string, password: Option<string>, content: string, time: string, id: string)

  datatype Guestbook = Guestbook(userId: string, comments: seq<Comment>)

  /** The digit draws of one `uuidv4` call: 31 values below 16. */
  predicate ValidDraws(draws: seq<nat>) {
    |draws| == 31 && forall i :: 0 <= i < |draws| ==> draws[i] < 16
  }

  // ---------------------------------------------------------------------------
  // Finding and filtering comments

  /** The comment with id `id` that comes first. */
  predicate FirstAt(comments: seq<Comment>, id: string, k: int) {
    0 <= k < |comments| && comments[k].id == id && forall i :: 0 <= i < k ==> comments[i].id != id
  }

  /** The first comment with id `id`, `None` when there is none. */
  function FirstComment(comments: seq<Comment>, id: string): (r: Option<Comment>)
    ensures r.None? <==> forall i :: 0 <= i < |comments| ==> comments[i].id != id
    ensures r.Some? ==> r.value.id == id && r.value in comments
    ensures r.Some? ==> exists k :: FirstAt(comments, id, k) && comments[k] == r.value
  {
    if |comments| == 0 then None
    else if comments[0].id == id then
      assert FirstAt(comments, id, 0);
      Some(comments[0])
    else
      var r := FirstComment(comments[1..], id);
      if r.Some? then
        var k :| FirstAt(comments[1..], id, k) && comments[1..][k] == r.value;
        assert FirstAt(comments, id, k + 1);
        r
      else r
  }

  /** The comments whose id is not `id`, in order. */
  function WithoutComment(comments: seq<Comment>, id: string): (r: seq<Comment>)
    ensures |r| <= |comments|
    ensures forall c :: c in r <==> c in comments && c.id != id
  {
    if |comments| == 0 then []
    else if comments[0].id == id then WithoutComment(comments[1..], id)
    else [comments[0]] + WithoutComment(comments[1..], id)
  }

  /**
   * Filtering works comment by comment: a single comment is kept exactly when
   * its id differs, and the filter of a concatenation is the concatenation of
   * the filters, so the comments that remain keep their order and their
   * repetitions.
   */
  lemma {:induction false} WithoutSplit(a: seq<Comment>, b: seq<Comment>, id: string)
    ensures WithoutComment([], id) == []
    ensures forall c :: WithoutComment([c], id) == if c.id == id then [] else [c]
    ensures WithoutComment(a + b, id) == WithoutComment(a, id) + WithoutComment(b, id)
  {
    forall c ensures WithoutComment([c], id) == if c.id == id then [] else [c] {
      WithoutSingle(c, id);
    }
    WithoutConcat(a, b, id);
  }

  lemma WithoutSingle(c: Comment, id: string)
    ensures WithoutComment([c], id) == if c.id == id then [] else [c]
  {
    assert [c][1..] == [];
  }

  lemma {:induction false} WithoutConcat(a: seq<Comment>, b: seq<Comment>, id: string)
    ensures WithoutComment(a + b, id) == WithoutComment(a, id) + WithoutComment(b, id)
  {
    if |a| > 0 {
      var rest := WithoutComment(a[1..] + b, id);
      assert (a + b)[0] == a[0];
      assert (a + b)[1..] == a[1..] + b;
      WithoutConcat(a[1..], b, id);
      assert rest == WithoutComment(a[1..], id) + WithoutComment(b, id);
      if a[0].id == id {
        assert WithoutComment(a + b, id) == rest;
      } else {
        assert WithoutComment(a + b, id) == [a[0]] + rest;
        assert WithoutComment(a, id) == [a[0]] + WithoutComment(a[1..], id);
      }
    } else {
      assert a + b == b;
    }
  }

  /** The first comment with an id in a list with one more comment at the end. */
  lemma {:induction false} FirstCommentAppend(comments: seq<Comment>, c: Comment, id: string)
    ensures FirstComment(comments + [c], id) ==
      if FirstComment(comments, id).Some? then FirstComment(comments, id)
      else if c.id == id then Some(c) else None
  {
    if |comments| > 0 {
      assert (comments + [c])[1..] == comments[1..] + [c];
      FirstCommentAppend(comments[1..], c, id);
    }
  }

  /** Filtering an id that no comment has keeps the list as it is. */
  lemma {:induction false} WithoutAbsentComment(comments: seq<Comment>, id: string)
    requires FirstComment(comments, id).None?
    ensures WithoutComment(comments, id) == comments
  {
    if |comments| > 0 {
      WithoutAbsentComment(comments[1..], id);
      assert comments == [comments[0]] + comments[1..];
    }
  }

  /** After a removal no comment has the removed id, so removing it again fails. */
  lemma RemovedCommentIsGone(comments: seq<Comment>, id: string)
    ensures FirstComment(WithoutComment(comments, id), id).None?
  {
    var r := WithoutComment(comments, id);
    forall i | 0 <= i < |r| ensures r[i].id != id {
      assert r[i] in r;
    }
  }

  // ---------------------------------------------------------------------------
  // The decisions

  /** `!!args.password`: the password is given and not empty. */
  predicate HasPassword(password: Option<string>) {
    password.Some? && password.value != ""
  }

  /**
   * The guard of `removeComment`: the book, then the first comment with the
   * id; with a password, the comment's password must equal it; without one,
   * the caller must own the book.
   */
  function RemoveCheck(identity: Option<string>, book: Option<Guestbook>, commentId: string, password: Option<string>): (r: Option<Failure>)
    ensures book.None? ==> r == Some(NotFound)
    ensures book.Some? && FirstComment(book.value.comments, commentId).None? ==> r == Some(NotFound)
    ensures r.None? <==> (book.Some? && FirstComment(book.value.comments, commentId).Some? &&
      (if HasPassword(password) then FirstComment(book.value.comments, commentId).value.password == password
       else identity == Some(book.value.userId)))
  {
    match book
    case None => Some(NotFound)
    case Some(b) =>
      match FirstComment(b.comments, commentId)
      case None => Some(NotFound)
      case Some(c) =>
        if HasPassword(password) then
          (if c.password != password then Some(IncorrectPassword) else None)
        else OwnerCheck(identity, Some(b.userId))
  }

  /**
   * Giving a password decides alone: a wrong one is refused even for the
   * book's owner, and an empty one counts as none, so only the owner passes.
   */
  lemma PasswordDecidesAlone(owner: string, b: Guestbook, commentId: string, password: string)
    requires b.userId == owner && FirstComment(b.comments, commentId).Some?
    ensures password != "" && FirstComment(b.comments, commentId).value.password != Some(password) ==>
      RemoveCheck(Some(owner), Some(b), commentId, Some(password)) == Some(IncorrectPassword)
    ensures forall identity :: RemoveCheck(identity, Some(b), commentId, Some("")) == RemoveCheck(identity, Some(b), commentId, None)
  {
  }

  /** What `get` returns for a book: every comment with its password removed, nothing else changed. */
  function Public(b: Guestbook): (r: Guestbook)
    ensures r.userId == b.userId && |r.comments| == |b.comments|
    ensures forall i :: 0 <= i < |b.comments| ==> r.comments[i] == b.comments[i].(password := None)
  {
    Guestbook(b.userId, seq(|b.comments|, i requires 0 <= i < |b.comments| => b.comments[i].(password := None)))
  }

  /** No password is visible in what `get` returns, and stripping twice is stripping once. */
  lemma PublicHidesPasswords(b: Guestbook)
    ensures forall c :: c in Public(b).comments ==> c.password.None?
    ensures Public(Public(b)) == Public(b)
  {
    var p := Public(b);
    forall c | c in p.comments ensures c.password.None? {
      var i :| 0 <= i < |p.comments| && p.comments[i] == c;
    }
  }

  /** The comment `addComment` appends. */
  function NewComment(name: string, password: string, content: string, time: string, draws: seq<nat>): (c: Comment)
    requires ValidDraws(draws)
    ensures c.password == Some(password) && |c.id| == 36
  {
    Comment(name, Some(password), content, time, Uuid4(draws))
  }

  /**
   * A comment just added can be removed with its own non-empty password,
   * provided no earlier comment drew the same uuid.
   */
  lemma AddedCommentRemovable(b: Guestbook, name: string, password: string, content: string, time: string, draws: seq<nat>, identity: Option<string>)
    requires ValidDraws(draws) && password != ""
    requires FirstComment(b.comments, Uuid4(draws)).None?
    ensures var c := NewComment(name, password, content, time, draws);
      RemoveCheck(identity, Some(b.(comments := b.comments + [c])), c.id, Some(password)).None?
  {
    var c := NewComment(name, password, content, time, draws);
    FirstCommentAppend(b.comments, c, c.id);
  }

  class GuestbookStore {
    var books: map<nat, Guestbook>
    /** The id the next insert receives. */
    var nextId: nat

    /** Every id in use was handed out. */
    predicate Valid()
      reads this
    {
      forall id :: id in books ==> id < nextId
    }

    constructor()
      ensures books == map[] && nextId == 0 && Valid()
    {
      books := map[];
      nextId := 0;
    }

    /** `create`: an empty book owned by the caller. */
    method Create(identity: Option<string>) returns (r: Result<nat, Failure>)
      requires Valid()
      modifies this
      ensures Valid()
      ensures identity.None? ==> r == Err(NotAuthenticated) && books == old(books) && nextId == old(nextId)
      ensures identity.Some? ==> r == Ok(old(nextId)) && old(nextId) !in old(books) && nextId == old(nextId) + 1
      ensures identity.Some? ==> books == old(books)[old(nextId) := Guestbook(identity.value, [])]
    {
      if identity.None? {
        return Err(NotAuthenticated);
      }
      var id := nextId;
      books := books[id := Guestbook(identity.value, [])];
      nextId := nextId + 1;
      return Ok(id);
    }

    /**
     * `addComment`: open to anyone; appends the comment with the time and a
     * fresh uuid drawn from `draws`.
     */
    method AddComment(id: nat, name: string, password: string, content: string, time: string, draws: seq<nat>)
      returns (r: Option<Failure>)
      requires Valid() && ValidDraws(draws)
      modifies this
      ensures Valid()
      ensures r.Some? <==> id !in old(books)
      ensures r.Some? ==> r == Some(NotFound) && books == old(books)
      ensures r.None? ==> books == old(books)[id := old(books)[id].(comments :=
        old(books)[id].comments + [NewComment(name, password, content, time, draws)])]
      ensures nextId == old(nextId)
    {
      if id !in books {
        return Some(NotFound);
      }
      var book := books[id];
      books := books[id := book.(comments := book.comments + [NewComment(name, password, content, time, draws)])];
      return None;
    }

    /** `removeComment`: when the guard passes, every comment with the id goes. */
    method RemoveComment(identity: Option<string>, id: nat, commentId: string, password: Option<string>)
      returns (r: Option<Failure>)
      requires Valid()
      modifies this
      ensures Valid()
      ensures r == RemoveCheck(identity, if id in old(books) then Some(old(books)[id]) else None, commentId, password)
      ensures r.None? ==> id in old(books)
      ensures r.None? ==> books == old(books)[id := old(books)[id].(comments := WithoutComment(old(books)[id].comments, commentId))]
      ensures r.Some? ==> books == old(books)
      ensures nextId == old(nextId)
    {
      if id !in books {
        return Some(NotFound);
      }
      var book := books[id];
      var existing := FirstComment(book.comments, commentId);
      if existing.None? {
        return Some(NotFound);
      }
      if HasPassword(password) {
        if existing.value.password != password {
          return Some(IncorrectPassword);
        }
      } else {
        var failure := OwnerCheck(identity, Some(book.userId));
        if failure.Some? {
          return failure;
        }
      }
      books := books[id := book.(comments := WithoutComment(book.comments, commentId))];
      return None;
    }

    /** `get`: open to anyone; the book with its passwords hidden. */
    method Get(id: nat) returns (r: Result<Guestbook, Failure>)
      ensures r.Err? <==> id !in books
      ensures r.Err? ==> r.error == NotFound
      ensures r.Ok? ==> r.value == Public(books[id])
    {
      if id !in books {
        return Err(NotFound);
      }
      return Ok(Public(books[id]));
    }
  }
}
