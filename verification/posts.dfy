/**
 * The post record and write form shared by the info-share and community
 * boards, and the submit rule both boards follow: refuse a blank title or
 * body, otherwise put one new post in front and reset the form.
 */
module Posts {
  import opened Wrappers
  import opened Text
  import opened Uploads

  /** One board entry. `id` is the `Date.now()` of its creation. */
  datatype Post = Post(
    id: int,
    title: string,
    content: string,
    author: string,
    tags: seq<string>,
    comments: int,
    likes: int,
    createdAt: string,
    images: seq<string>,
    category: string)

  /** The write form: `tags` is the raw comma-separated text. */
  datatype PostForm = PostForm(title: string, content: string, tags: string, images: seq<FileRef>, category: string)

  /** A board page: its posts, its form, and whether the write panel is open. */
  datatype Board = Board(posts: seq<Post>, form: PostForm, writeOpen: bool)

  /** The author every locally written post gets. */
  const LocalAuthor := "사용자"

  /** The age label of a post written just now. */
  const JustNow := "방금 전"

  /** `formData.images.map(file => URL.createObjectURL(file))`, with the URL maker supplied by the caller. */
  function ObjectUrls(files: seq<FileRef>, objectUrl: FileRef -> string): (urls: seq<string>)
    ensures |urls| == |files|
    ensures forall i :: 0 <= i < |files| ==> urls[i] == objectUrl(files[i])
  {
    seq(|files|, i requires 0 <= i < |files| => objectUrl(files[i]))
  }

  /** The form a board resets to after a post, with the board's own default category. */
  function FreshForm(defaultCategory: string): PostForm {
    PostForm("", "", "", [], defaultCategory)
  }

  /**
   * The post built from a valid form: stamped with `now`, written by the local
   * author just now, with the parsed tags and one object URL per picked image.
   */
  function NewPost(form: PostForm, now: int, objectUrl: FileRef -> string): (p: Post)
    ensures p.comments == 0 && p.likes == 0 && p.author == LocalAuthor
    ensures p.title == form.title && p.content == form.content && p.category == form.category
    ensures forall i :: 0 <= i < |p.tags| ==> p.tags[i] != "" && IsTrimmed(p.tags[i])
    ensures p.id == now && p.createdAt == JustNow
    ensures p.tags == ParseTags(form.tags)
    ensures p.images == ObjectUrls(form.images, objectUrl)
  {
    Post(now, form.title, form.content, LocalAuthor, ParseTags(form.tags), 0, 0, JustNow,
         ObjectUrls(form.images, objectUrl), form.category)
  }

  /** Tags written as a comma-separated list of clean names are stored as exactly those names. */
  lemma NewPostTagsRoundTrip(form: PostForm, now: int, objectUrl: FileRef -> string, tags: seq<string>)
    requires forall i :: 0 <= i < |tags| ==> tags[i] != "" && IsTrimmed(tags[i]) && ',' !in tags[i]
    ensures NewPost(form.(tags := Join(tags, ',')), now, objectUrl).tags == tags
  {
    ParseTagsOfJoin(tags);
  }

  /**
   * The shared `handleSubmit`: a title or body that is blank after trimming
   * changes nothing; otherwise exactly one new post is put in front of the
   * old ones, the form is reset to `defaultCategory`, and the panel closes.
   */
  function SubmitPost(b: Board, now: int, objectUrl: FileRef -> string, defaultCategory: string): (r: Board)
    ensures IsBlank(b.form.title) || IsBlank(b.form.content) ==> r == b
    ensures !IsBlank(b.form.title) && !IsBlank(b.form.content) ==>
      && |r.posts| == |b.posts| + 1
      && r.posts[1..] == b.posts
      && r.posts[0] == NewPost(b.form, now, objectUrl)
      && r.form == FreshForm(defaultCategory)
      && !r.writeOpen
  {
    if IsBlank(b.form.title) || IsBlank(b.form.content) then b
    else Board([NewPost(b.form, now, objectUrl)] + b.posts, FreshForm(defaultCategory), false)
  }

  /** The form is blank after a post, so posting again at once adds nothing more. */
  lemma SubmitTwiceAddsOnce(b: Board, now: int, later: int, objectUrl: FileRef -> string, defaultCategory: string)
    ensures SubmitPost(SubmitPost(b, now, objectUrl, defaultCategory), later, objectUrl, defaultCategory) ==
      SubmitPost(b, now, objectUrl, defaultCategory)
  {
    BlankIffAllSpace("");
  }

  /** `handleImageUpload` on a post form: picked files follow the existing ones; nothing else in the form changes. */
  function UploadImages(form: PostForm, picked: Option<seq<FileRef>>): (r: PostForm)
    ensures picked.Some? ==> r.images == form.images + picked.value
    ensures picked.None? ==> r == form
    ensures r.(images := form.images) == form
  {
    form.(images := AppendFiles(form.images, picked))
  }

  /** `removeImage(index)` on a post form: exactly that image goes; out of range, nothing does. */
  function RemoveFormImage(form: PostForm, index: int): (r: PostForm)
    ensures 0 <= index < |form.images| ==> r.images == form.images[..index] + form.images[index + 1..]
    ensures !(0 <= index < |form.images|) ==> r == form
    ensures r.(images := form.images) == form
  {
    form.(images := WithoutIndex(form.images, index, 0))
  }
}
