/**
 * ArticlesService: create, list, fetch, update and delete articles over the
 * articles table, modelled as a map from id to row. Timestamps are
 * milliseconds supplied by the caller; ids continue from a counter where the
 * database generates uuids.
 */
module Articles {
  import opened Outcomes
  import opened Identity

  type ArticleId = nat

  /**
   * A row of the articles table as the repository returns it. `author` is the
   * author relation when it is loaded: the email of that user, or None.
   */
  datatype Article = Article(
    id: ArticleId, title: string, content: string, isPublished: bool,
    authorId: UserId, author: Option<string>, createdAt: nat, updatedAt: nat)

  /** ArticleResponseDto, the shape every endpoint returns (and the client's Article). */
  datatype ArticleResponse = ArticleResponse(
    id: ArticleId, title: string, content: string, isPublished: bool,
    authorId: UserId, authorEmail: string, createdAt: nat, updatedAt: nat)

  /** CreateArticleDto: isPublished is optional. */
  datatype CreateArticleDto = CreateArticleDto(title: string, content: string, isPublished: Option<bool>)

  /** UpdateArticleDto: every field optional; None is a field the request left out. */
  datatype UpdateArticleDto = UpdateArticleDto(title: Option<string>, content: Option<string>, isPublished: Option<bool>)

  /** NotFoundException(`Article with ID ${id} not found`). */
  datatype ArticleError = NotFound(id: ArticleId)

  const UnknownAuthor := "Unknown"

  /**
   * toResponseDto: the row's fields unchanged, and the author's email, or
   * 'Unknown' when no author is loaded or its email is empty.
   */
  function ToResponseDto(a: Article): (r: ArticleResponse)
    ensures r.id == a.id && r.title == a.title && r.content == a.content
    ensures r.isPublished == a.isPublished && r.authorId == a.authorId
    ensures r.createdAt == a.createdAt && r.updatedAt == a.updatedAt
    ensures r.authorEmail != ""
    ensures a.author.Some? && a.author.value != "" ==> r.authorEmail == a.author.value
    ensures a.author.None? ==> r.authorEmail == UnknownAuthor
  {
    var authorEmail := if a.author.Some? && a.author.value != "" then a.author.value else UnknownAuthor;
    ArticleResponse(a.id, a.title, a.content, a.isPublished, a.authorId, authorEmail, a.createdAt, a.updatedAt)
  }

  /** Object.assign(article, dto): each field the request supplied replaces the row's. */
  function Merge(a: Article, dto: UpdateArticleDto, now: nat): (m: Article)
    ensures m.id == a.id && m.authorId == a.authorId && m.author == a.author && m.createdAt == a.createdAt
    ensures m.title == dto.title.GetOr(a.title)
    ensures m.content == dto.content.GetOr(a.content)
    ensures m.isPublished == dto.isPublished.GetOr(a.isPublished)
    ensures m.updatedAt == now
  {
    a.(title := dto.title.GetOr(a.title),
       content := dto.content.GetOr(a.content),
       isPublished := dto.isPublished.GetOr(a.isPublished),
       updatedAt := now)
  }

  /** Applying the same update twice changes nothing more than applying it once. */
  lemma MergeIdempotent(a: Article, dto: UpdateArticleDto, now: nat)
    ensures Merge(Merge(a, dto, now), dto, now) == Merge(a, dto, now)
  {
  }

  /** Who sees an article in the list: an ADMIN sees every article, anyone else only published ones. */
  predicate Visible(role: Role, a: Article)
  {
    role == ADMIN || a.isPublished
  }

  /** Newest first: createdAt never increases along the list. */
  predicate NewestFirst(s: seq<ArticleResponse>)
  {
    forall i, j :: 0 <= i < j < |s| ==> s[i].createdAt >= s[j].createdAt
  }

  function IdsOf(s: seq<ArticleResponse>): set<ArticleId>
  {
    set i | 0 <= i < |s| :: s[i].id
  }

  /** Where `x` goes in a newest-first list: after every element strictly newer than it. */
  function InsertPosition(s: seq<ArticleResponse>, x: ArticleResponse): (k: nat)
    requires NewestFirst(s)
    ensures k <= |s|
    ensures forall i :: 0 <= i < k ==> s[i].createdAt > x.createdAt
    ensures forall i :: k <= i < |s| ==> s[i].createdAt <= x.createdAt
  {
    if s == [] || s[0].createdAt <= x.createdAt then 0 else 1 + InsertPosition(s[1..], x)
  }

  /** Putting `x` at its insert position keeps a list newest first, and adds exactly `x`. */
  lemma InsertKeepsNewestFirst(s: seq<ArticleResponse>, x: ArticleResponse)
    requires NewestFirst(s)
    ensures var k := InsertPosition(s, x);
            && NewestFirst(s[..k] + [x] + s[k..])
            && multiset(s[..k] + [x] + s[k..]) == multiset(s) + multiset{x}
  {
    var k := InsertPosition(s, x);
    var r := s[..k] + [x] + s[k..];
    forall i, j | 0 <= i < j < |r| ensures r[i].createdAt >= r[j].createdAt {
      var ci := if i < k then s[i].createdAt else if i == k then x.createdAt else s[i - 1].createdAt;
      var cj := if j < k then s[j].createdAt else if j == k then x.createdAt else s[j - 1].createdAt;
      assert r[i].createdAt == ci && r[j].createdAt == cj;
    }
    assert s == s[..k] + s[k..];
  }

  /** Every element of `s` is the response projection of the row with its id. */
  ghost predicate Projected(s: seq<ArticleResponse>, rows: map<ArticleId, Article>)
  {
    forall i :: 0 <= i < |s| ==> s[i].id in rows && s[i] == ToResponseDto(rows[s[i].id])
  }

  /** The ids of the rows a caller with `role` sees. */
  function VisibleIds(rows: map<ArticleId, Article>, role: Role): set<ArticleId>
  {
    set id | id in rows && Visible(role, rows[id])
  }

  /** The ids of a concatenation are the ids of its parts. */
  lemma IdsOfConcat(a: seq<ArticleResponse>, b: seq<ArticleResponse>)
    ensures IdsOf(a + b) == IdsOf(a) + IdsOf(b)
  {
    var ab := a + b;
    forall j | j in IdsOf(ab) ensures j in IdsOf(a) + IdsOf(b) {
      var i :| 0 <= i < |ab| && ab[i].id == j;
      if i < |a| { assert a[i] == ab[i]; } else { assert b[i - |a|] == ab[i]; }
    }
    forall j | j in IdsOf(a) + IdsOf(b) ensures j in IdsOf(ab) {
      if j in IdsOf(a) {
        var i :| 0 <= i < |a| && a[i].id == j;
        assert ab[i] == a[i];
      } else {
        var i :| 0 <= i < |b| && b[i].id == j;
        assert ab[|a| + i] == b[i];
      }
    }
  }

  lemma IdsOfSingleton(x: ArticleResponse)
    ensures IdsOf([x]) == {x.id}
  {
    assert [x][0].id == x.id;
  }

  /** Putting `x` anywhere into a list adds its id to the list's ids. */
  lemma InsertIds(s: seq<ArticleResponse>, x: ArticleResponse, k: nat)
    requires k <= |s|
    ensures IdsOf(s[..k] + [x] + s[k..]) == IdsOf(s) + {x.id}
  {
    var a, b := s[..k], s[k..];
    assert s == a + b;
    IdsOfConcat(a, b);
    IdsOfConcat(a, [x]);
    IdsOfConcat(a + [x], b);
    IdsOfSingleton(x);
  }

  /** Putting a projection anywhere into a list of projections keeps it a list of projections. */
  lemma InsertProjected(s: seq<ArticleResponse>, rows: map<ArticleId, Article>, x: ArticleResponse, k: nat)
    requires k <= |s| && Projected(s, rows)
    requires x.id in rows && x == ToResponseDto(rows[x.id])
    ensures Projected(s[..k] + [x] + s[k..], rows)
  {
    var r := s[..k] + [x] + s[k..];
    forall i | 0 <= i < |r| ensures r[i].id in rows && r[i] == ToResponseDto(rows[r[i].id]) {
      if i < k { assert r[i] == s[i]; } else if i > k { assert r[i] == s[i - 1]; }
    }
  }

  /**
   * One step of the listing: the list held the visible rows outside
   * `pending`; adding visible row `id` at its insert position makes it hold
   * the visible rows outside `pending - {id}`, still newest first.
   */
  lemma ListingStep(r: seq<ArticleResponse>, rows: map<ArticleId, Article>, role: Role,
                    pending: set<ArticleId>, id: ArticleId)
    requires id in pending && pending <= rows.Keys && rows[id].id == id && Visible(role, rows[id])
    requires NewestFirst(r) && Projected(r, rows)
    requires IdsOf(r) == VisibleIds(rows, role) - pending && |r| == |IdsOf(r)|
    ensures var x := ToResponseDto(rows[id]);
            var k := InsertPosition(r, x);
            var r' := r[..k] + [x] + r[k..];
            && NewestFirst(r') && Projected(r', rows)
            && IdsOf(r') == VisibleIds(rows, role) - (pending - {id}) && |r'| == |IdsOf(r')|
  {
    var x := ToResponseDto(rows[id]);
    var k := InsertPosition(r, x);
    InsertKeepsNewestFirst(r, x);
    InsertIds(r, x, k);
    InsertProjected(r, rows, x, k);
    assert VisibleIds(rows, role) - (pending - {id}) == (VisibleIds(rows, role) - pending) + {id};
  }

  /** A list holding exactly the visible rows shows a non-admin only published articles. */
  lemma VisibleToUserIsPublished(r: seq<ArticleResponse>, rows: map<ArticleId, Article>, role: Role)
    requires Projected(r, rows) && IdsOf(r) == VisibleIds(rows, role) && role != ADMIN
    ensures forall i :: 0 <= i < |r| ==> r[i].isPublished
  {
    forall i | 0 <= i < |r| ensures r[i].isPublished {
      assert r[i].id in IdsOf(r);
    }
  }

  class ArticlesService {
    /** The articles table. */
    var rows: map<ArticleId, Article>
    /** Where id generation continues. */
    var nextId: nat

    ghost predicate Valid()
      reads this
    {
      forall id | id in rows :: rows[id].id == id && id < nextId
    }

    /**
     * The service over the table as it stands: `rows0` are its rows, each
     * filed under its own id, and ids continue from `next0`.
     */
    constructor (rows0: map<ArticleId, Article>, next0: nat)
      requires forall id | id in rows0 :: rows0[id].id == id && id < next0
      ensures Valid() && rows == rows0 && nextId == next0
    {
      rows := rows0;
      nextId := next0;
    }

    /**
     * create: a new row from the request, authored by the caller, unpublished
     * unless the request says otherwise. The author relation is not loaded on
     * the saved row, so the response names the author 'Unknown'.
     */
    method Create(dto: CreateArticleDto, userId: UserId, now: nat) returns (r: ArticleResponse)
      requires Valid()
      requires dto.title != "" && dto.content != ""
      modifies this
      ensures Valid()
      ensures r.id !in old(rows)
      ensures rows == old(rows)[r.id := Article(r.id, dto.title, dto.content, dto.isPublished.GetOr(false), userId, None, now, now)]
      ensures r == ToResponseDto(rows[r.id]) && r.authorId == userId && r.authorEmail == UnknownAuthor
    {
      var article := Article(nextId, dto.title, dto.content, dto.isPublished.GetOr(false), userId, None, now, now);
      rows := rows[nextId := article];
      nextId := nextId + 1;
      r := ToResponseDto(article);
    }

    /**
     * findAll: for ADMIN every article, for anyone else exactly the published
     * ones, each once, newest first, as response objects.
     */
    method FindAll(role: Role) returns (r: seq<ArticleResponse>)
      requires Valid()
      ensures NewestFirst(r)
      ensures IdsOf(r) == VisibleIds(rows, role) && |r| == |VisibleIds(rows, role)|
      ensures forall i :: 0 <= i < |r| ==> r[i].id in rows && r[i] == ToResponseDto(rows[r[i].id])
      ensures role != ADMIN ==> forall i :: 0 <= i < |r| ==> r[i].isPublished
    {
      var pending := rows.Keys;
      r := [];
      while pending != {}
        invariant pending <= rows.Keys
        invariant NewestFirst(r) && Projected(r, rows)
        invariant IdsOf(r) == VisibleIds(rows, role) - pending
        invariant |r| == |IdsOf(r)|
        decreases pending
      {
        var id :| id in pending;
        if Visible(role, rows[id]) {
          var x := ToResponseDto(rows[id]);
          var k := InsertPosition(r, x);
          ListingStep(r, rows, role, pending, id);
          r := r[..k] + [x] + r[k..];
        } else {
          assert VisibleIds(rows, role) - pending == VisibleIds(rows, role) - (pending - {id});
        }
        pending := pending - {id};
      }
      if role != ADMIN {
        VisibleToUserIsPublished(r, rows, role);
      }
    }

    /** findOne: the article whatever its published state, or NotFound. */
    function FindOne(id: ArticleId): (r: Result<ArticleResponse, ArticleError>)
      requires Valid()
      reads this
      ensures r.Success? <==> id in rows
      ensures r.Success? ==> r.value == ToResponseDto(rows[id]) && r.value.id == id
      ensures r.Failure? ==> r.error == NotFound(id)
    {
      if id !in rows then Failure(NotFound(id)) else Success(ToResponseDto(rows[id]))
    }

    /** update: NotFound for a missing id; otherwise merge the supplied fields and save. */
    method Update(id: ArticleId, dto: UpdateArticleDto, now: nat) returns (r: Result<ArticleResponse, ArticleError>)
      requires Valid()
      modifies this
      ensures Valid() && nextId == old(nextId)
      ensures id !in old(rows) ==> r == Failure(NotFound(id)) && rows == old(rows)
      ensures id in old(rows) ==>
                && rows == old(rows)[id := Merge(old(rows)[id], dto, now)]
                && r == Success(ToResponseDto(rows[id]))
    {
      if id !in rows {
        return Failure(NotFound(id));
      }
      var article := Merge(rows[id], dto, now);
      rows := rows[id := article];
      return Success(ToResponseDto(article));
    }

    /** remove: delete the row, and raise NotFound when no row was affected. */
    method Remove(id: ArticleId) returns (r: Result<(), ArticleError>)
      requires Valid()
      modifies this
      ensures Valid() && nextId == old(nextId)
      ensures rows == old(rows) - {id}
      ensures r.Failure? <==> id !in old(rows)
      ensures r.Failure? ==> r.error == NotFound(id)
    {
      var affected := if id in rows then 1 else 0;
      rows := rows - {id};
      if affected == 0 {
        return Failure(NotFound(id));
      }
      return Success(());
    }
  }
}
