/**
 * The image lists of the post forms (info-share, community, code-share):
 * `handleImageUpload` appends the picked files, `removeImage` filters one
 * index out. Browser files are opaque handles; turning one into an object
 * URL is a function the caller supplies.
 */
module Uploads {
  import opened Wrappers

  /** A browser `File`, known only by identity. */
  datatype FileRef = FileRef(handle: nat)

  /**
   * `handleImageUpload`: when the input holds a file list, its files follow the
   * existing ones; when it holds none, the list is unchanged.
   */
  function AppendFiles<T>(images: seq<T>, picked: Option<seq<T>>): (r: seq<T>)
    ensures picked.Some? ==> |r| == |images| + |picked.value| && r[..|images|] == images && r[|images|..] == picked.value
    ensures picked.None? ==> r == images
  {
    match picked
    case Some(files) => images + files
    case None => images
  }

  /**
   * `images.filter((_, i) => i !== index)` over the suffix that starts at
   * position `from`: exactly the element at `index` is dropped when it lies
   * in range, and nothing otherwise.
   */
  function WithoutIndex<T>(s: seq<T>, index: int, from: int): (r: seq<T>)
    ensures from <= index < from + |s| ==> r == s[..index - from] + s[index - from + 1..]
    ensures !(from <= index < from + |s|) ==> r == s
    decreases |s|
  {
    if |s| == 0 then []
    else
      var rest := WithoutIndex(s[1..], index, from + 1);
      if from == index then
        assert s[1..] == s[..0] + s[1..];
        rest
      else
        assert [s[0]] + s[1..] == s;
        if from + 1 <= index < from + |s| then
          assert [s[0]] + (s[1..][..index - from - 1] + s[1..][index - from..]) == s[..index - from] + s[index - from + 1..];
          [s[0]] + rest
        else
          [s[0]] + rest
  }

  /** `removeImage(index)`. */
  function RemoveImage<T>(images: seq<T>, index: int): (r: seq<T>)
    ensures 0 <= index < |images| ==> |r| == |images| - 1
    ensures 0 <= index < |images| ==> forall k :: 0 <= k < |r| ==> r[k] == (if k < index then images[k] else images[k + 1])
    ensures !(0 <= index < |images|) ==> r == images
  {
    WithoutIndex(images, index, 0)
  }

  /** Removing the image just uploaded restores the list before the upload. */
  lemma RemoveUndoesSingleUpload<T>(images: seq<T>, file: T)
    ensures RemoveImage(AppendFiles(images, Some([file])), |images|) == images
  {
    var grown := images + [file];
    assert grown[..|images|] == images;
  }
}
