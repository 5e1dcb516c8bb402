/** The client form that creates a post: `validateForm` and the request
    `handleSubmit` sends. */
module CreatePostPage {
  import opened Wrappers
  import opened JsString
  import opened ObjectId
  import opened UserModel
  import opened PostModel
  import opened PostsRoute

  /** The keys of the form's error object. */
  datatype Field = TitleField | ContentField

  /** `validateForm()`: one message per invalid field, the title's being
      either "required" or "too long", never both. */
  function ValidateForm(title: string, content: string): (errors: map<Field, string>)
    ensures TitleField in errors <==> Trim(title) == [] || |Trim(title)| > TitleMaxLength
    ensures TitleField in errors ==>
              errors[TitleField] == Message(if Trim(title) == [] then TitleRequired else TitleTooLong)
    ensures ContentField in errors <==> Trim(content) == []
    ensures ContentField in errors ==> errors[ContentField] == Message(ContentRequired)
  {
    var t := Trim(title);
    var titleErrors: map<Field, string> :=
      if t == [] then map[TitleField := Message(TitleRequired)]
      else if |t| > TitleMaxLength then map[TitleField := Message(TitleTooLong)]
      else map[];
    if Trim(content) == [] then titleErrors[ContentField := Message(ContentRequired)] else titleErrors
  }

  /** The form is valid when no error key was produced. */
  predicate FormValid(title: string, content: string) {
    |ValidateForm(title, content)| == 0
  }

  /** The client's rules are the schema's rules. */
  lemma FormValidIff(title: string, content: string)
    ensures FormValid(title, content) <==>
              Trim(title) != [] && |Trim(title)| <= TitleMaxLength && Trim(content) != []
    ensures FormValid(title, content) <==> Validate(title, content).Passed()
  {
    var errors := ValidateForm(title, content);
    if TitleField in errors {
      assert |errors| > 0 by { assert TitleField in errors.Keys; }
    } else if ContentField in errors {
      assert |errors| > 0 by { assert ContentField in errors.Keys; }
    } else {
      assert errors.Keys == {} by {
        forall f | f in errors.Keys ensures false {
          match f
          case TitleField =>
          case ContentField =>
        }
      }
    }
  }

  /** `handleSubmit`: no request when the form is invalid, otherwise a body
      with the trimmed title and content. */
  function Submit(title: string, content: string): (r: Option<PostBody>)
    ensures r.None? <==> !FormValid(title, content)
    ensures r.Some? ==> r.value == PostBody(Some(Trim(title)), Some(Trim(content)))
  {
    if !FormValid(title, content) then None
    else Some(PostBody(Some(Trim(title)), Some(Trim(content))))
  }

  /** An already trimmed, valid title and content are accepted and stored
      unchanged. */
  lemma TrimmedBodyIsAccepted(posts: seq<Post>, user: PublicUser, t: string, c: string,
                              id: Oid, now: int)
    requires t != [] && c != [] && |t| <= TitleMaxLength
    requires Trim(t) == t && Trim(c) == c
    requires !IdInUse(posts, id)
    ensures var r := CreatePost(posts, user, PostBody(Some(t), Some(c)), id, now);
            && r.1.status == Http.Created
            && r.1.data.post.title == t
            && r.1.data.post.content == c
            && r.1.data.post.author == user.id
  {
    CreatePostAccepts(posts, user, PostBody(Some(t), Some(c)), id, now);
  }

  /** A request the form sends passes every check of the server and, given
      a free id, creates a post with exactly the submitted title and content. */
  lemma SubmittedFormIsAccepted(posts: seq<Post>, user: PublicUser, title: string, content: string,
                                id: Oid, now: int)
    requires Submit(title, content).Some? && !IdInUse(posts, id)
    ensures var r := CreatePost(posts, user, Submit(title, content).value, id, now);
            && r.1.status == Http.Created
            && r.1.data.post.title == Trim(title)
            && r.1.data.post.content == Trim(content)
            && r.1.data.post.author == user.id
  {
    FormValidIff(title, content);
    TrimIdempotent(title);
    TrimIdempotent(content);
    TrimmedBodyIsAccepted(posts, user, Trim(title), Trim(content), id, now);
  }
}
