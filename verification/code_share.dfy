/**
 * The code-share board: snippets with a language, submitted only when title,
 * description and code are all non-blank, plus the image handlers.
 */
module CodeShare {
  import opened Wrappers
  import opened Text
  import opened Uploads
  import opened Posts

  /** One shared snippet. `id` is the `Date.now()` of its creation. */
  datatype CodeEntry = CodeEntry(
    id: int,
    title: string,
    description: string,
    code: string,
    language: string,
    author: string,
    tags: seq<string>,
    likes: int,
    downloads: int,
    createdAt: string,
    images: seq<string>)

  /** The write form: `tags` is the raw comma-separated text. */
  datatype CodeForm = CodeForm(title: string, description: string, code: string, language: string, tags: string, images: seq<FileRef>)

  /** The page: its snippets, its form, and whether the write panel is open. */
  datatype CodeBoard = CodeBoard(codes: seq<CodeEntry>, form: CodeForm, writeOpen: bool)

  /** The form the page starts with and returns to. */
  const FreshCodeForm := CodeForm("", "", "", "javascript", "", [])

  /** Submission needs all three text fields non-blank after trimming. */
  predicate Submittable(form: CodeForm) {
    !IsBlank(form.title) && !IsBlank(form.description) && !IsBlank(form.code)
  }

  /**
   * `handleSubmit`: unless title, description and code are all non-blank,
   * nothing changes; otherwise one snippet with no likes or downloads, stamped
   * with `now` and "방금 전", goes in front, the form is reset to "javascript",
   * and the panel closes.
   */
  function HandleSubmit(b: CodeBoard, now: int, objectUrl: FileRef -> string): (r: CodeBoard)
    ensures !Submittable(b.form) ==> r == b
    ensures Submittable(b.form) ==>
      && |r.codes| == |b.codes| + 1 && r.codes[1..] == b.codes
      && r.codes[0].likes == 0 && r.codes[0].downloads == 0
      && r.codes[0].title == b.form.title && r.codes[0].description == b.form.description
      && r.codes[0].code == b.form.code && r.codes[0].language == b.form.language
      && r.codes[0].author == LocalAuthor
      && r.codes[0].tags == ParseTags(b.form.tags)
      && r.codes[0].images == ObjectUrls(b.form.images, objectUrl)
      && r.codes[0].id == now && r.codes[0].createdAt == JustNow
      && r.form == FreshCodeForm
      && !r.writeOpen
  {
    if !Submittable(b.form) then b
    else
      var f := b.form;
      var entry := CodeEntry(now, f.title, f.description, f.code, f.language, LocalAuthor,
                             ParseTags(f.tags), 0, 0, JustNow, ObjectUrls(f.images, objectUrl));
      CodeBoard([entry] + b.codes, FreshCodeForm, false)
  }

  /** Whitespace-only code is refused even when title and description are filled in. */
  lemma WhitespaceCodeRefused(b: CodeBoard, now: int, objectUrl: FileRef -> string)
    requires AllSpace(b.form.code)
    ensures HandleSubmit(b, now, objectUrl) == b
  {
    BlankIffAllSpace(b.form.code);
  }

  /** `handleImageUpload`: picked files follow the existing ones; nothing else in the form changes. */
  function HandleImageUpload(form: CodeForm, picked: Option<seq<FileRef>>): (r: CodeForm)
    ensures picked.Some? ==> r.images == form.images + picked.value
    ensures picked.None? ==> r == form
    ensures r.(images := form.images) == form
  {
    form.(images := AppendFiles(form.images, picked))
  }

  /** `removeImage(index)`: exactly that image goes; out of range, nothing does. */
  function HandleRemoveImage(form: CodeForm, index: int): (r: CodeForm)
    ensures 0 <= index < |form.images| ==> r.images == form.images[..index] + form.images[index + 1..]
    ensures !(0 <= index < |form.images|) ==> r == form
    ensures r.(images := form.images) == form
  {
    form.(images := WithoutIndex(form.images, index, 0))
  }

  /** The form is blank after a submit, so submitting again at once adds nothing more. */
  lemma SubmitTwiceAddsOnce(b: CodeBoard, now: int, later: int, objectUrl: FileRef -> string)
    ensures HandleSubmit(HandleSubmit(b, now, objectUrl), later, objectUrl) == HandleSubmit(b, now, objectUrl)
  {
    BlankIffAllSpace("");
  }
}
