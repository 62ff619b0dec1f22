/**
 * The article list page's own logic: the all/published/draft filter, the
 * list updates after a delete or a publish toggle, and the content preview.
 * The list holds what the server returned (ArticleResponseDto).
 */
module ArticleList {
  import opened Seqs
  import opened Articles
  import opened JsText

  /** The filter select: 'all' | 'published' | 'draft'. */
  datatype ListFilter = All | Published | Draft

  /** Whether an article passes the selected filter. */
  predicate Shows(filter: ListFilter, a: ArticleResponse)
  {
    match filter
    case All => true
    case Published => a.isPublished
    case Draft => !a.isPublished
  }

  function ShowsFn(filter: ListFilter): ArticleResponse -> bool
  {
    a => Shows(filter, a)
  }

  /** filteredArticles. */
  function FilteredArticles(articles: seq<ArticleResponse>, filter: ListFilter): seq<ArticleResponse>
  {
    Filter(articles, ShowsFn(filter))
  }

  /** 'all' keeps the whole list. */
  lemma {:induction false} AllShowsEverything(articles: seq<ArticleResponse>)
    ensures FilteredArticles(articles, All) == articles
  {
    FilterKeepsAll(articles, ShowsFn(All));
  }

  /**
   * 'published' keeps exactly the published articles and 'draft' exactly the
   * others, so together they split the list.
   */
  lemma {:induction false} PublishedAndDraftPartition(articles: seq<ArticleResponse>)
    ensures forall i :: 0 <= i < |FilteredArticles(articles, Published)| ==> FilteredArticles(articles, Published)[i].isPublished
    ensures forall i :: 0 <= i < |FilteredArticles(articles, Draft)| ==> !FilteredArticles(articles, Draft)[i].isPublished
    ensures forall i :: 0 <= i < |articles| && articles[i].isPublished ==> articles[i] in FilteredArticles(articles, Published)
    ensures forall i :: 0 <= i < |articles| && !articles[i].isPublished ==> articles[i] in FilteredArticles(articles, Draft)
    ensures multiset(FilteredArticles(articles, Published)) + multiset(FilteredArticles(articles, Draft)) == multiset(articles)
  {
    FilterPartition(articles, ShowsFn(Published), ShowsFn(Draft));
  }

  /** Every filter keeps the list's order. */
  lemma {:induction false} FilteredIsSubsequence(articles: seq<ArticleResponse>, filter: ListFilter)
    ensures IsSubsequence(FilteredArticles(articles, filter), articles)
  {
    FilterIsSubsequence(articles, ShowsFn(filter));
  }

  /**
   * A non-admin's list holds only published articles, so the draft filter
   * shows nothing and the published filter shows everything.
   */
  lemma {:induction false} PublishedListFilters(articles: seq<ArticleResponse>)
    requires forall i :: 0 <= i < |articles| ==> articles[i].isPublished
    ensures FilteredArticles(articles, Draft) == []
    ensures FilteredArticles(articles, Published) == articles
  {
    FilterKeepsAll(articles, ShowsFn(Published));
    FilterPartition(articles, ShowsFn(Published), ShowsFn(Draft));
  }

  function OtherId(id: ArticleId): ArticleResponse -> bool
  {
    (a: ArticleResponse) => a.id != id
  }

  /** handleDelete: articles.filter(a => a.id !== id). */
  function DeleteById(articles: seq<ArticleResponse>, id: ArticleId): seq<ArticleResponse>
  {
    Filter(articles, OtherId(id))
  }

  /** How many articles of the list carry `id`. */
  function CountId(articles: seq<ArticleResponse>, id: ArticleId): nat
  {
    if articles == [] then 0 else (if articles[0].id == id then 1 else 0) + CountId(articles[1..], id)
  }

  /**
   * Delete removes exactly the articles with the id: none of them is left,
   * every other article stays, in the original order, and the list shrinks
   * by their number.
   */
  lemma {:induction false} DeleteRemovesExactlyThatId(articles: seq<ArticleResponse>, id: ArticleId)
    ensures forall i :: 0 <= i < |DeleteById(articles, id)| ==> DeleteById(articles, id)[i].id != id
    ensures forall i :: 0 <= i < |articles| && articles[i].id != id ==> articles[i] in DeleteById(articles, id)
    ensures IsSubsequence(DeleteById(articles, id), articles)
    ensures |DeleteById(articles, id)| == |articles| - CountId(articles, id)
  {
    FilterIsSubsequence(articles, OtherId(id));
    RejectedIsCount(articles, id);
    FilterDropsRejected(articles, OtherId(id));
  }

  lemma {:induction false} RejectedIsCount(articles: seq<ArticleResponse>, id: ArticleId)
    ensures Rejected(articles, OtherId(id)) == CountId(articles, id)
  {
    if articles != [] {
      RejectedIsCount(articles[1..], id);
    }
  }

  /** handleTogglePublish: articles.map(a => a.id === id ? updated : a). */
  function ReplaceById(articles: seq<ArticleResponse>, id: ArticleId, updated: ArticleResponse): (r: seq<ArticleResponse>)
    ensures |r| == |articles|
  {
    seq(|articles|, i requires 0 <= i < |articles| => if articles[i].id == id then updated else articles[i])
  }

  /**
   * When the server returns the article under the same id, the toggle keeps
   * the list's length and its sequence of ids, and changes nothing at the
   * positions of other ids.
   */
  lemma ReplaceKeepsIds(articles: seq<ArticleResponse>, updated: ArticleResponse)
    ensures var r := ReplaceById(articles, updated.id, updated);
            && (forall i :: 0 <= i < |r| ==> r[i].id == articles[i].id)
            && (forall i :: 0 <= i < |r| && articles[i].id != updated.id ==> r[i] == articles[i])
            && (forall i :: 0 <= i < |r| && articles[i].id == updated.id ==> r[i] == updated)
  {
  }

  /** Toggling an article that is not in the list leaves the list as it was. */
  lemma ReplaceAbsentIsIdentity(articles: seq<ArticleResponse>, id: ArticleId, updated: ArticleResponse)
    requires forall i :: 0 <= i < |articles| ==> articles[i].id != id
    ensures ReplaceById(articles, id, updated) == articles
  {
  }

  /** Deleting after a toggle of the same article is the same as deleting it outright. */
  lemma {:induction false} DeleteAfterReplace(articles: seq<ArticleResponse>, updated: ArticleResponse)
    ensures DeleteById(ReplaceById(articles, updated.id, updated), updated.id) == DeleteById(articles, updated.id)
  {
    if articles != [] {
      DeleteAfterReplace(articles[1..], updated);
      assert ReplaceById(articles, updated.id, updated)[1..] == ReplaceById(articles[1..], updated.id, updated);
    }
  }

  const PreviewLength: nat := 200

  /**
   * content.substring(0, 200) followed by '...' when content.length > 200,
   * both counted in UTF-16 code units.
   */
  function Preview(content: string): (r: string)
    ensures Utf16Length(content) <= PreviewLength ==> r == content
    ensures Utf16Length(content) > PreviewLength ==>
              && |r| >= 3 && r[|r| - 3..] == "..."
              && r[..|r| - 3] < content
              && PreviewLength - 1 <= Utf16Length(r[..|r| - 3]) <= PreviewLength
  {
    var shown := Utf16Prefix(content, PreviewLength);
    if Utf16Length(content) > PreviewLength then
      assert (shown + "...")[..|shown|] == shown;
      shown + "..."
    else shown
  }

  /**
   * The preview never exceeds 203 code units; on text in the Basic
   * Multilingual Plane it is the first 200 characters followed by '...'
   * exactly when the content has more than 200.
   */
  lemma {:induction false} PreviewShape(content: string)
    ensures Utf16Length(Preview(content)) <= PreviewLength + 3
    ensures InBmp(content) && |content| <= PreviewLength ==> Preview(content) == content
    ensures InBmp(content) && |content| > PreviewLength ==> Preview(content) == content[..PreviewLength] + "..."
  {
    var shown := Utf16Prefix(content, PreviewLength);
    if Utf16Length(content) > PreviewLength {
      Utf16LengthConcat(shown, "...");
      assert Utf16Length("...") == 3 by {
        assert "..."[1..] == "..";
        assert ".."[1..] == ".";
        assert "."[1..] == "";
      }
    }
    if InBmp(content) {
      BmpLengthAgrees(content);
      Utf16PrefixOfBmp(content, PreviewLength);
    }
  }
}
