/**
 * The guest book block of the editor: a block holding the id of a book in the
 * `guestbooks` table, a comment form that checks its three fields before
 * calling `addComment`, and a trash button per comment that in the published
 * view first asks for the comment's password.
 */
module GuestbookBlock {
  import opened Wrappers
  import opened Access
  import opened Guestbooks

  // ---------------------------------------------------------------------------
  // The block and its book

  /** The block's only prop: the book's id, "" before a book is created. */
  datatype GuestbookProps = GuestbookProps(id: string)

  /** The slash-menu item turns the current block into a guest book with no book yet. */
  function InsertGuestbookBlock(): (p: GuestbookProps)
    ensures p.id == ""
  {
    GuestbookProps("")
  }

  /** The argument of the `get` query: skipped (`None`) while the id is "". */
  function BookQuery(p: GuestbookProps): (q: Option<string>)
    ensures q.None? <==> p.id == ""
    ensures q.Some? ==> q.value == p.id
  {
    if p.id == "" then None else Some(p.id)
  }

  /** What the block shows: the "Add guestbook" prompt, or the comment count and the comments. */
  datatype BookView = AddPrompt | Comments(count: nat, comments: seq<Comment>)

  function ViewOf(book: Option<Guestbook>): (v: BookView)
    ensures v.AddPrompt? <==> book.None?
    ensures v.Comments? ==> v.count == |v.comments| && v.comments == book.value.comments
  {
    match book
    case None => AddPrompt
    case Some(b) => Comments(|b.comments|, b.comments)
  }

  /** `onCreate`: the id of the created book becomes the block's id. */
  function OnCreated(p: GuestbookProps, newId: string): (r: GuestbookProps)
    ensures r.id == newId
    ensures newId != "" ==> BookQuery(r) == Some(newId)
  {
    p.(id := newId)
  }

  // ---------------------------------------------------------------------------
  // The comment form

  /** The message `onPushComment` shows for the first empty field, in the order nickname, password, comment. */
  function FormError(name: string, password: string, content: string): (e: Option<string>)
    ensures e.None? <==> name != "" && password != "" && content != ""
    ensures name == "" ==> e == Some("nickname is required")
    ensures name != "" && password == "" ==> e == Some("password is required")
    ensures name != "" && password != "" && content == "" ==> e == Some("comment is required")
  {
    if name == "" then Some("nickname is required")
    else if password == "" then Some("password is required")
    else if content == "" then Some("comment is required")
    else None
  }

  /** The arguments of an `addComment` call. */
  datatype AddCommentCall = AddCommentCall(id: string, name: string, password: string, content: string)

  /** The form's state: its three inputs and the error line. */
  class CommentForm {
    var name: string
    var password: string
    var content: string
    var errorMessage: string

    constructor()
      ensures name == "" && password == "" && content == "" && errorMessage == ""
    {
      name := "";
      password := "";
      content := "";
      errorMessage := "";
    }

    /** Typing into one of the inputs. */
    method SetFields(n: string, pw: string, c: string)
      modifies this
      ensures name == n && password == pw && content == c && errorMessage == old(errorMessage)
    {
      name, password, content := n, pw, c;
    }

    /**
     * `onPushComment`: an empty field shows its message and calls nothing;
     * a complete form calls `addComment` once and clears the three inputs.
     */
    method OnPushComment(id: string) returns (call: Option<AddCommentCall>)
      modifies this
      ensures FormError(old(name), old(password), old(content)).Some? ==>
        call.None? && Some(errorMessage) == FormError(old(name), old(password), old(content))
      ensures FormError(old(name), old(password), old(content)).Some? ==>
        name == old(name) && password == old(password) && content == old(content)
      ensures FormError(old(name), old(password), old(content)).None? ==>
        call == Some(AddCommentCall(id, old(name), old(password), old(content)))
      ensures FormError(old(name), old(password), old(content)).None? ==>
        name == "" && password == "" && content == "" && errorMessage == old(errorMessage)
    {
      var e := FormError(name, password, content);
      if e.Some? {
        errorMessage := e.value;
        return None;
      }
      call := Some(AddCommentCall(id, name, password, content));
      name, password, content := "", "", "";
    }

    /** The timer started with a message clears it. */
    method ExpireError()
      modifies this
      ensures errorMessage == "" && name == old(name) && password == old(password) && content == old(content)
    {
      errorMessage := "";
    }
  }

  // ---------------------------------------------------------------------------
  // Removing a comment

  /** The arguments of a `removeComment` call; `password` is left out as `None`. */
  datatype RemoveCommentCall = RemoveCommentCall(id: string, commentId: string, password: Option<string>)

  /** `onRemove`: the typed password is passed on only in the published view. */
  function OnRemove(preview: bool, id: string, commentId: string, password: Option<string>): (r: RemoveCommentCall)
    ensures r.id == id && r.commentId == commentId
    ensures r.password == (if preview then password else None)
  {
    if preview then RemoveCommentCall(id, commentId, password) else RemoveCommentCall(id, commentId, None)
  }

  /**
   * In the editor a removal carries no password, so the backend lets it
   * through only for the book's owner; in the published view an empty typed
   * password falls back to the same rule.
   */
  lemma EditorRemovalNeedsOwner(identity: Option<string>, b: Guestbook, id: string, commentId: string, typed: Option<string>, preview: bool)
    requires !preview || typed == Some("")
    ensures var call := OnRemove(preview, id, commentId, typed);
      RemoveCheck(identity, Some(b), call.commentId, call.password).None? <==>
        FirstComment(b.comments, commentId).Some? && identity == Some(b.userId)
  {
  }

  /** One comment's trash button: in the published view it first reveals a password input. */
  class CommentTrash {
    const preview: bool
    /** The password input is shown. */
    var pw: bool
    var password: string

    constructor(preview: bool)
      ensures this.preview == preview && !pw && password == ""
    {
      this.preview := preview;
      pw := false;
      password := "";
    }

    method SetPassword(typed: string)
      modifies this
      ensures password == typed && pw == old(pw)
    {
      password := typed;
    }

    /**
     * `onTrashClick`: `removal` is the `onRemove` call made, its inner
     * option the password passed. In the published view the first click
     * only shows the input.
     */
    method OnTrashClick() returns (removal: Option<Option<string>>)
      modifies this
      ensures preview && !old(pw) ==> removal.None? && pw
      ensures preview && old(pw) ==> removal == Some(Some(password)) && pw
      ensures !preview ==> removal == Some(None) && pw == old(pw)
      ensures password == old(password)
    {
      if preview && !pw {
        pw := true;
        removal := None;
      } else if preview {
        removal := Some(Some(password));
      } else {
        removal := Some(None);
      }
    }
  }

  /** In the published view deleting takes two clicks and sends the password typed between them. */
  method PublishedDeleteTakesTwoClicks(typed: string) returns (first: Option<Option<string>>, second: Option<Option<string>>)
    ensures first.None? && second == Some(Some(typed))
  {
    var trash := new CommentTrash(true);
    first := trash.OnTrashClick();
    trash.SetPassword(typed);
    second := trash.OnTrashClick();
  }

  /** In the editor one click deletes, without a password. */
  method EditorDeleteTakesOneClick() returns (first: Option<Option<string>>)
    ensures first == Some(None)
  {
    var trash := new CommentTrash(false);
    first := trash.OnTrashClick();
  }
}
