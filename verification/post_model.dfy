/** The post schema: `title` and `content` are required strings trimmed on
    assignment, `title` has a maximum length, `author` is a required
    reference to a user, and timestamps are kept on every document. */
module PostModel {
  import opened Wrappers
  import opened JsString
  import opened ObjectId

  const TitleMaxLength: nat := 200

  /** The schema's validation failures. */
  datatype SchemaError = TitleRequired | TitleTooLong | ContentRequired

  function Message(e: SchemaError): string {
    match e
    case TitleRequired => "Title is required"
    case TitleTooLong => "Title cannot exceed 200 characters"
    case ContentRequired => "Content is required"
  }

  /** A stored post; `author` holds the author's `_id`, which the type
      makes always present. */
  datatype Post = Post(
    id: Oid,
    title: string,
    content: string,
    author: Oid,
    createdAt: int,
    updatedAt: int)

  /** What every stored post satisfies. */
  predicate SchemaValid(p: Post) {
    && p.title != [] && Trim(p.title) == p.title && |p.title| <= TitleMaxLength
    && p.content != [] && Trim(p.content) == p.content
    && p.createdAt <= p.updatedAt
  }

  /** The errors of a failed validation, keyed by path like Mongoose's
      `ValidationError.errors`; None for a path that passed. */
  datatype Violations = Violations(title: Option<SchemaError>, content: Option<SchemaError>) {
    predicate Passed() {
      title.None? && content.None?
    }
  }

  /** Validation of a document built from `title` and `content`: the `trim`
      setter runs first, then `required` (which fails on the empty string)
      and, for the title, `maxlength`. */
  function Validate(title: string, content: string): (v: Violations)
    ensures v.Passed() <==>
              Trim(title) != [] && |Trim(title)| <= TitleMaxLength && Trim(content) != []
    ensures v.title == Some(TitleRequired) <==> Trim(title) == []
    ensures v.title == Some(TitleTooLong) <==> |Trim(title)| > TitleMaxLength
    ensures v.title.Some? ==> v.title.value != ContentRequired
    ensures v.content.Some? <==> Trim(content) == []
    ensures v.content.Some? ==> v.content.value == ContentRequired
  {
    var t := Trim(title);
    var c := Trim(content);
    Violations(
      if t == [] then Some(TitleRequired)
      else if |t| > TitleMaxLength then Some(TitleTooLong)
      else None,
      if c == [] then Some(ContentRequired) else None)
  }

  /** The schema's `trim` runs before its checks, so a value trimmed in
      advance is judged the same way. */
  lemma ValidateTrimmed(title: string, content: string)
    ensures Validate(Trim(title), Trim(content)) == Validate(title, content)
  {
    TrimIdempotent(title);
    TrimIdempotent(content);
    ValidateSeesTrimmed(title, Trim(title), content, Trim(content));
  }

  /** Validation looks at the trimmed values only. */
  lemma ValidateSeesTrimmed(title: string, title': string, content: string, content': string)
    requires Trim(title') == Trim(title) && Trim(content') == Trim(content)
    ensures Validate(title', content') == Validate(title, content)
  {
  }

  /** `new Post({ title, content, author })` followed by the validation of
      `save()`: a document with the trimmed fields and both timestamps set
      to `now`, or the validation errors. */
  function NewPost(id: Oid, title: string, content: string, author: Oid, now: int)
    : (r: Result<Post, Violations>)
    ensures r.Success? <==> Validate(title, content).Passed()
    ensures r.Failure? ==> r.error == Validate(title, content)
    ensures r.Success? ==> SchemaValid(r.value)
    ensures r.Success? ==> r.value.id == id && r.value.author == author
    ensures r.Success? ==> r.value.title == Trim(title) && r.value.content == Trim(content)
    ensures r.Success? ==> r.value.createdAt == now && r.value.updatedAt == now
  {
    var violations := Validate(title, content);
    if !violations.Passed() then Failure(violations)
    else
      TrimIdempotent(title);
      TrimIdempotent(content);
      Success(Post(id, Trim(title), Trim(content), author, now, now))
  }
}
