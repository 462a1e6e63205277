/**
 * The post form (src/pages/CreatePostPage.jsx): its state cells, the tag
 * editor that keeps at most five distinct trimmed tags, and the submit
 * guard that hands the post to `createPost`.
 */
module CreatePostPage {
  import opened Wrappers
  import opened Text
  import opened Search
  import opened PostModel
  import opened MockApi

  /** The most tags a post may carry. */
  const MaxTags: nat := 5

  /** A tag list the editor can produce: at most five, no repeats, each trimmed and non-empty. */
  predicate GoodTags(tags: seq<string>) {
    && |tags| <= MaxTags
    && Distinct(tags)
    && forall k :: 0 <= k < |tags| ==> tags[k] != [] && IsTrimmed(tags[k])
  }

  /** Appending a new trimmed non-empty tag to fewer than five keeps the list good. */
  lemma AppendGoodTag(tags: seq<string>, t: string)
    requires GoodTags(tags) && |tags| < MaxTags
    requires t != [] && IsTrimmed(t) && t !in tags
    ensures GoodTags(tags + [t])
  {
    var r := tags + [t];
    forall i, j | 0 <= i < j < |r| ensures r[i] != r[j] {
      if j == |tags| {
        assert r[i] == tags[i];
      }
    }
  }

  function Other(x: string): string -> bool {
    (t: string) => t != x
  }

  class PostForm {
    var title: string
    var content: string
    var tag: string
    var tags: seq<string>
    var imagePreview: string

    ghost predicate Valid()
      reads this
    {
      GoodTags(tags)
    }

    /** An empty form. */
    constructor ()
      ensures Valid()
      ensures title == [] && content == [] && tag == [] && tags == [] && imagePreview == []
    {
      title, content, tag, tags, imagePreview := [], [], [], [], [];
    }

    /** Typing into the title input. */
    method EditTitle(value: string)
      modifies this
      ensures title == value && content == old(content) && tag == old(tag)
      ensures tags == old(tags) && imagePreview == old(imagePreview)
    {
      title := value;
    }

    /** Typing into the content area. */
    method EditContent(value: string)
      modifies this
      ensures content == value && title == old(title) && tag == old(tag)
      ensures tags == old(tags) && imagePreview == old(imagePreview)
    {
      content := value;
    }

    /** Typing into the tag input. */
    method EditTag(value: string)
      modifies this
      ensures tag == value && title == old(title) && content == old(content)
      ensures tags == old(tags) && imagePreview == old(imagePreview)
    {
      tag := value;
    }

    /**
     * `handleAddTag`: the trimmed input is appended, and the input cleared,
     * only when it is non-empty, not already a tag, and fewer than five
     * tags exist; otherwise nothing changes.
     */
    method AddTag() returns (added: bool)
      requires Valid()
      modifies this
      ensures Valid()
      ensures added <==> Trim(old(tag)) != [] && Trim(old(tag)) !in old(tags) && |old(tags)| < MaxTags
      ensures added ==> tags == old(tags) + [Trim(old(tag))] && tag == []
      ensures !added ==> unchanged(this)
      ensures title == old(title) && content == old(content) && imagePreview == old(imagePreview)
    {
      var t := Trim(tag);
      if t != [] && t !in tags && |tags| < MaxTags {
        TrimIsTrimmed(tag);
        AppendGoodTag(tags, t);
        tags := tags + [t];
        tag := [];
        added := true;
      } else {
        added := false;
      }
    }

    /** `handleRemoveTag(x)`: every tag equal to `x` goes, the rest stay in order. */
    method RemoveTag(x: string)
      requires Valid()
      modifies this
      ensures Valid()
      ensures tags == Filter(old(tags), Other(x))
      ensures x !in tags && forall t :: t in old(tags) && t != x ==> t in tags
      ensures title == old(title) && content == old(content) && tag == old(tag) && imagePreview == old(imagePreview)
    {
      FilterDistinct(tags, Other(x));
      tags := Filter(tags, Other(x));
    }

    /**
     * `handleSubmit`'s guard: nothing is submitted when the trimmed title
     * or the trimmed content is empty; otherwise the untrimmed title and
     * content, the tags and the preview URL go to `createPost`.
     */
    function Submission(): (r: Option<NewPostData>)
      reads this
      ensures r.None? <==> Trim(title) == [] || Trim(content) == []
      ensures r.Some? ==> r.value.title == title && r.value.content == content
      ensures r.Some? ==> r.value.tags == Some(tags) && r.value.image == Some(imagePreview)
    {
      if Trim(title) == [] || Trim(content) == [] then None
      else Some(NewPostData(title, content, Some(tags), Some(imagePreview)))
    }
  }

  /**
   * The schema's `trim` setter leaves every tag list the editor can build as
   * it is. This relates two functions; the page itself posts to the mock
   * store, which does not trim.
   */
  lemma EditorTagsSurviveTrim(tags: seq<string>)
    requires GoodTags(tags)
    ensures TrimAll(tags) == tags
  {
    forall k | 0 <= k < |tags| ensures TrimAll(tags)[k] == tags[k] {
      TrimOfTrimmed(tags[k]);
    }
  }

  /** Submitted without an image, the mock store records the post's image as null and its tags as edited. */
  lemma SubmitWithoutImage(data: NewPostData, id: nat, now: nat, tags: seq<string>)
    requires data.image == Some([]) && data.tags == Some(tags)
    ensures NewMockPost(id, data, now).image == None
    ensures NewMockPost(id, data, now).tags == tags
  {
  }
}
