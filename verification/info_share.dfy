/**
 * The info-share board: submit with its default category, the category
 * filter, the `filter` URL parameter and the image handlers.
 */
module InfoShare {
  import opened Wrappers
  import opened Seqs
  import opened Text
  import opened Uploads
  import opened Posts

  /** The category the form starts with and returns to. */
  const DefaultCategory := "스터디 카페"

  /** The filter value that shows every post. */
  const AllCategories := "전체"

  /** `handleSubmit` on this board. */
  function HandleSubmit(b: Board, now: int, objectUrl: FileRef -> string): (r: Board)
    ensures IsBlank(b.form.title) || IsBlank(b.form.content) ==> r == b
    ensures !IsBlank(b.form.title) && !IsBlank(b.form.content) ==>
      && r.posts == [NewPost(b.form, now, objectUrl)] + b.posts
      && r.posts[0].category == b.form.category
      && r.posts[0].comments == 0 && r.posts[0].likes == 0
      && r.form == PostForm("", "", "", [], DefaultCategory)
      && !r.writeOpen
  {
    SubmitPost(b, now, objectUrl, DefaultCategory)
  }

  /** The posts of one category, in board order. */
  function PostsIn(posts: seq<Post>, category: string): (r: seq<Post>)
    ensures forall i :: 0 <= i < |r| ==> r[i].category == category
    ensures forall p :: p in posts && p.category == category ==> p in r
    ensures IsSubsequence(r, posts)
    decreases |posts|
  {
    if |posts| == 0 then []
    else
      var rest := PostsIn(posts[1..], category);
      assert [posts[0]] + posts[1..] == posts;
      if posts[0].category == category then
        SubsequenceCons(posts[0], rest, posts[1..]);
        [posts[0]] + rest
      else
        SubsequenceSkip(posts[0], rest, posts[1..]);
        rest
  }

  /** The category filter keeps each post of the category exactly as many times as the board holds it, and no other post. */
  lemma {:induction false} PostsInCounts(posts: seq<Post>, category: string)
    ensures forall p :: multiset(PostsIn(posts, category))[p] == if p.category == category then multiset(posts)[p] else 0
    decreases |posts|
  {
    if |posts| > 0 {
      PostsInCounts(posts[1..], category);
      assert [posts[0]] + posts[1..] == posts;
    }
  }

  /** `filteredPosts`: every post under "전체", otherwise exactly the posts of the selected category. */
  function FilteredPosts(posts: seq<Post>, selected: string): (r: seq<Post>)
    ensures selected == AllCategories ==> r == posts
    ensures selected != AllCategories ==> forall i :: 0 <= i < |r| ==> r[i].category == selected
    ensures selected != AllCategories ==> forall p :: p in posts && p.category == selected ==> p in r
    ensures selected != AllCategories ==>
      forall p :: multiset(r)[p] == if p.category == selected then multiset(posts)[p] else 0
    ensures IsSubsequence(r, posts)
  {
    if selected == AllCategories then
      SubsequenceRefl(posts);
      posts
    else
      PostsInCounts(posts, selected);
      PostsIn(posts, selected)
  }

  /** A new post heads the filtered list of its own category, ahead of the older matches. */
  lemma SubmitThenFilter(b: Board, now: int, objectUrl: FileRef -> string)
    requires !IsBlank(b.form.title) && !IsBlank(b.form.content)
    ensures FilteredPosts(HandleSubmit(b, now, objectUrl).posts, b.form.category) ==
      [NewPost(b.form, now, objectUrl)] + FilteredPosts(b.posts, b.form.category)
  {
    var p := NewPost(b.form, now, objectUrl);
    assert ([p] + b.posts)[1..] == b.posts;
  }

  /** The `filter` URL parameter: any non-empty value becomes the selected category, listed or not. */
  function SelectCategoryFromUrl(selected: string, filter: Option<string>): (r: string)
    ensures filter.Some? && filter.value != "" ==> r == filter.value
    ensures filter.None? || filter.value == "" ==> r == selected
  {
    if filter.Some? && filter.value != "" then filter.value else selected
  }

  /**
   * Opened with a `filter` parameter naming a category, the board shows
   * exactly that category's posts, each as often as the board holds it;
   * with "전체" it shows every post.
   */
  lemma UrlFilterShowsCategory(posts: seq<Post>, selected: string, filter: Option<string>)
    requires filter.Some? && filter.value != ""
    ensures var shown := FilteredPosts(posts, SelectCategoryFromUrl(selected, filter));
      && (filter.value == AllCategories ==> shown == posts)
      && (filter.value != AllCategories ==>
            forall p :: multiset(shown)[p] == if p.category == filter.value then multiset(posts)[p] else 0)
  {
  }
}
