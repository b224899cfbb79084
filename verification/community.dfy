/**
 * The community board: the same post submit rule as the info-share board,
 * with its own default category, and the same image handlers.
 */
module Community {
  import opened Wrappers
  import opened Text
  import opened Uploads
  import opened Posts

  /** The category the form starts with and returns to. */
  const DefaultCategory := "자유게시판"

  /**
   * `handleSubmit` on this board: the new post goes in front, authored by
   * "사용자", stamped with `now` and "방금 전", keeping the form's category and
   * one object URL per picked image.
   */
  function HandleSubmit(b: Board, now: int, objectUrl: FileRef -> string): (r: Board)
    ensures IsBlank(b.form.title) || IsBlank(b.form.content) ==> r == b
    ensures !IsBlank(b.form.title) && !IsBlank(b.form.content) ==>
      && |r.posts| == |b.posts| + 1 && r.posts[1..] == b.posts
      && r.posts[0].author == "사용자"
      && r.posts[0].comments == 0 && r.posts[0].likes == 0
      && r.posts[0].title == b.form.title && r.posts[0].content == b.form.content
      && r.posts[0].tags == ParseTags(b.form.tags)
      && r.posts[0].category == b.form.category
      && r.posts[0].images == ObjectUrls(b.form.images, objectUrl)
      && r.posts[0].id == now && r.posts[0].createdAt == JustNow
      && r.form == PostForm("", "", "", [], DefaultCategory)
      && !r.writeOpen
  {
    SubmitPost(b, now, objectUrl, DefaultCategory)
  }
}
