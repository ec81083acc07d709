/** The username search of `UsernamePostSearcher`: every post's author is
    looked up through a read-through cache (`get_user_full_info_cached`),
    and an author whose name contains the keyword is reported once
    (`seen_user_ids`). The code runs pages on a thread pool; the model runs
    them one after another, in any order, and each page's posts in turn.
    `fetch` stands for `get_complete_user_info`, the remote lookup. */
module UserSearch {
  import opened Wrappers
  import opened Text

  datatype UserInfo = UserInfo(id: int, name: string)

  /** One reported user: the post author's id, the fetched record and the
      page it was found on. */
  datatype Found = Found(uid: int, info: UserInfo, page: int)

  datatype Post =
    /** A post's two author fields: `post["user"]["id"]` and
        `post["user_id"]`; `None` when the key is absent. */
    | Post(userObjectId: Option<int>, postUserId: Option<int>)
    /** A post whose author fields raise when read (a `user` that is
        `null`, say); `search_page`'s handler then abandons the page. */
    | Broken

  /** The searcher's state; `fetches` logs each call of the remote lookup. */
  datatype Searcher = Searcher(keyword: string, cache: map<int, UserInfo>, seen: set<int>, found: seq<Found>, fetches: seq<int>)

  /** `UsernamePostSearcher(spider, keyword)`: nothing found, seen, cached
      or fetched yet. */
  function NewSearcher(keyword: string): (r: Searcher)
    ensures r.keyword == keyword && r.found == [] && r.seen == {} && r.cache == map[] && r.fetches == []
  {
    Searcher(keyword, map[], {}, [], [])
  }

  /** Python truthiness of an optional id: absent and 0 are false. */
  predicate Truthy(v: Option<int>) {
    v.Some? && v.value != 0
  }

  /** `get_user_full_info_cached`: a hit returns the cached record without a
      call; a miss calls `fetch`, caches a non-empty answer and returns it. */
  function GetCached(s: Searcher, uid: int, fetch: int -> Option<UserInfo>): (res: (Searcher, Option<UserInfo>))
    ensures uid in s.cache ==> res == (s, Some(s.cache[uid]))
    ensures uid !in s.cache ==> res.1 == fetch(uid) && res.0.fetches == s.fetches + [uid]
    ensures uid !in s.cache ==> res.0.cache == (if fetch(uid).Some? then s.cache[uid := fetch(uid).value] else s.cache)
    ensures res.0.keyword == s.keyword && res.0.seen == s.seen && res.0.found == s.found
  {
    if uid in s.cache then (s, Some(s.cache[uid]))
    else
      var info := fetch(uid);
      var s1 := s.(fetches := s.fetches + [uid]);
      if info.Some? then (s1.(cache := s.cache[uid := info.value]), info) else (s1, None)
  }

  /** `user_info.get("id") or post.get("user_id")`: the author id a post
      is attributed to. */
  function AuthorId(post: Post): (r: Option<int>)
    requires post.Post?
    ensures Truthy(r) <==> Truthy(post.userObjectId) || Truthy(post.postUserId)
    ensures Truthy(post.userObjectId) ==> r == post.userObjectId
    ensures !Truthy(post.userObjectId) ==> r == post.postUserId
  {
    if Truthy(post.userObjectId) then post.userObjectId else post.postUserId
  }

  /** A readable post whose author the lookup finds under a name holding
      the keyword: the posts the search exists to report. */
  predicate Matches(keyword: string, post: Post, fetch: int -> Option<UserInfo>) {
    && post.Post?
    && Truthy(AuthorId(post))
    && fetch(AuthorId(post).value).Some?
    && Contains(fetch(AuthorId(post).value).value.name, keyword)
  }

  /** The loop body of `search_page` for one post. */
  function ScanPost(s: Searcher, page: int, post: Post, fetch: int -> Option<UserInfo>): (r: Searcher)
    requires post.Post?
    ensures r.keyword == s.keyword
    ensures |s.found| <= |r.found| <= |s.found| + 1 && r.found[..|s.found|] == s.found
    ensures |r.found| == |s.found| + 1 ==>
              var f := r.found[|s.found|];
              f.uid !in s.seen && r.seen == s.seen + {f.uid} && Contains(f.info.name, s.keyword) && f.page == page
    ensures |r.found| == |s.found| ==> r.seen == s.seen
  {
    var uid := AuthorId(post);
    if !Truthy(uid) then s
    else
      var (s1, info) := GetCached(s, uid.value, fetch);
      if info.None? then s1
      else if Contains(info.value.name, s.keyword) && uid.value !in s1.seen then
        s1.(seen := s1.seen + {uid.value}, found := s1.found + [Found(uid.value, info.value, page)])
      else s1
  }

  /** `search_page` on a page whose listing succeeded (a failed listing is
      a page with no posts). The posts before a `Broken` one keep their
      effect; the handler drops the rest of the page. Reports are only ever
      appended and ids only ever added to `seen`. */
  function SearchPage(s: Searcher, page: int, posts: seq<Post>, fetch: int -> Option<UserInfo>): (r: Searcher)
    ensures r.keyword == s.keyword
    ensures |s.found| <= |r.found| && r.found[..|s.found|] == s.found && s.seen <= r.seen
    decreases |posts|
  {
    if |posts| == 0 || posts[0].Broken? then s
    else SearchPage(ScanPost(s, page, posts[0], fetch), page, posts[1..], fetch)
  }

  /** A post that raises abandons the page: the posts after it are never
      scanned, and those before it keep their effect. */
  lemma {:induction false} BrokenPostEndsPage(s: Searcher, page: int, before: seq<Post>, after: seq<Post>,
                                              fetch: int -> Option<UserInfo>)
    ensures SearchPage(s, page, before + [Broken] + after, fetch) == SearchPage(s, page, before, fetch)
    decreases |before|
  {
    if |before| == 0 {
      assert (before + [Broken] + after)[0] == Broken;
    } else if before[0].Broken? {
      assert (before + [Broken] + after)[0] == before[0];
    } else {
      var all := before + [Broken] + after;
      assert all[0] == before[0] && all[1..] == before[1..] + [Broken] + after;
      BrokenPostEndsPage(ScanPost(s, page, before[0], fetch), page, before[1..], after, fetch);
    }
  }

  /** The pages, in the order their workers ran. Reports are only ever
      appended. */
  function SearchAll(s: Searcher, pages: seq<(int, seq<Post>)>, fetch: int -> Option<UserInfo>): (r: Searcher)
    ensures r.keyword == s.keyword
    ensures |s.found| <= |r.found| && r.found[..|s.found|] == s.found && s.seen <= r.seen
    decreases |pages|
  {
    if |pages| == 0 then s
    else SearchAll(SearchPage(s, pages[0].0, pages[0].1, fetch), pages[1..], fetch)
  }

  /** Each reported user is reported once, `seen` is exactly the set of
      reported ids, and every reported name contains the keyword. */
  ghost predicate ReportsOnce(s: Searcher) {
    && (forall i, j :: 0 <= i < j < |s.found| ==> s.found[i].uid != s.found[j].uid)
    && (forall x :: x in s.seen <==> exists i :: 0 <= i < |s.found| && s.found[i].uid == x)
    && (forall i :: 0 <= i < |s.found| ==> Contains(s.found[i].info.name, s.keyword))
  }

  /** The cache agrees with the remote lookup, holds exactly the ids whose
      lookup answered, and no lookup that answered was ever repeated. */
  ghost predicate CacheSound(s: Searcher, fetch: int -> Option<UserInfo>) {
    && (forall k :: k in s.cache ==> fetch(k) == Some(s.cache[k]))
    && (forall k :: k in s.cache <==> k in s.fetches && fetch(k).Some?)
    && (forall i, j :: 0 <= i < j < |s.fetches| && s.fetches[i] == s.fetches[j] ==> fetch(s.fetches[i]).None?)
  }

  /** What the searcher keeps true between posts. */
  ghost predicate Inv(s: Searcher, fetch: int -> Option<UserInfo>) {
    ReportsOnce(s) && CacheSound(s, fetch)
  }

  lemma NewSearcherInv(keyword: string, fetch: int -> Option<UserInfo>)
    ensures Inv(NewSearcher(keyword), fetch)
  {
  }

  /** A cached lookup returns what the remote lookup would, and fetches a
      key again only if its earlier fetch came back empty. */
  lemma GetCachedKeepsInv(s: Searcher, uid: int, fetch: int -> Option<UserInfo>)
    requires CacheSound(s, fetch)
    ensures GetCached(s, uid, fetch).1 == fetch(uid)
    ensures CacheSound(GetCached(s, uid, fetch).0, fetch)
  {
    if uid !in s.cache {
      var r := GetCached(s, uid, fetch).0;
      forall i, j | 0 <= i < j < |r.fetches| && r.fetches[i] == r.fetches[j]
        ensures fetch(r.fetches[i]).None?
      {
        if j == |s.fetches| {
          assert r.fetches[i] == s.fetches[i];
          assert uid in s.fetches;
        }
      }
    }
  }

  /** Reporting a new user whose name matches keeps every user reported once. */
  lemma ReportKeepsOnce(s: Searcher, f: Found)
    requires ReportsOnce(s) && f.uid !in s.seen && Contains(f.info.name, s.keyword)
    ensures ReportsOnce(s.(seen := s.seen + {f.uid}, found := s.found + [f]))
  {
    var r := s.(seen := s.seen + {f.uid}, found := s.found + [f]);
    forall x
      ensures x in r.seen <==> exists i :: 0 <= i < |r.found| && r.found[i].uid == x
    {
      if x in s.seen {
        var i :| 0 <= i < |s.found| && s.found[i].uid == x;
        assert r.found[i].uid == x;
      }
      if exists i :: 0 <= i < |r.found| && r.found[i].uid == x {
        var i :| 0 <= i < |r.found| && r.found[i].uid == x;
        if i < |s.found| {
          assert s.found[i].uid == x;
        }
      }
      assert r.found[|s.found|].uid == f.uid;
    }
    forall i, j | 0 <= i < j < |r.found|
      ensures r.found[i].uid != r.found[j].uid
    {
      if j == |s.found| {
        assert r.found[i] == s.found[i];
        assert s.found[i].uid in s.seen;
      }
    }
  }

  lemma ScanPostKeepsInv(s: Searcher, page: int, post: Post, fetch: int -> Option<UserInfo>)
    requires Inv(s, fetch) && post.Post?
    ensures Inv(ScanPost(s, page, post, fetch), fetch)
  {
    var uid := AuthorId(post);
    if Truthy(uid) {
      GetCachedKeepsInv(s, uid.value, fetch);
      var (s1, info) := GetCached(s, uid.value, fetch);
      assert ReportsOnce(s1);
      if info.Some? && Contains(info.value.name, s.keyword) && uid.value !in s1.seen {
        ReportKeepsOnce(s1, Found(uid.value, info.value, page));
      }
    }
  }

  lemma {:induction false} SearchPageKeepsInv(s: Searcher, page: int, posts: seq<Post>, fetch: int -> Option<UserInfo>)
    requires Inv(s, fetch)
    ensures Inv(SearchPage(s, page, posts, fetch), fetch)
    decreases |posts|
  {
    if |posts| > 0 && posts[0].Post? {
      ScanPostKeepsInv(s, page, posts[0], fetch);
      SearchPageKeepsInv(ScanPost(s, page, posts[0], fetch), page, posts[1..], fetch);
    }
  }

  /** Whatever order the pages are processed in: every user is reported at
      most once and under a matching name, and each successful remote
      lookup happens at most once per id. */
  lemma {:induction false} SearchAllKeepsInv(s: Searcher, pages: seq<(int, seq<Post>)>, fetch: int -> Option<UserInfo>)
    requires Inv(s, fetch)
    ensures Inv(SearchAll(s, pages, fetch), fetch)
    decreases |pages|
  {
    if |pages| > 0 {
      SearchPageKeepsInv(s, pages[0].0, pages[0].1, fetch);
      SearchAllKeepsInv(SearchPage(s, pages[0].0, pages[0].1, fetch), pages[1..], fetch);
    }
  }

  /** A matching author is seen once its post is scanned: either it was
      seen already, or the scan reports it now. */
  lemma ScanPostFinds(s: Searcher, page: int, post: Post, fetch: int -> Option<UserInfo>)
    requires Inv(s, fetch) && Matches(s.keyword, post, fetch)
    ensures AuthorId(post).value in ScanPost(s, page, post, fetch).seen
  {
    GetCachedKeepsInv(s, AuthorId(post).value, fetch);
  }

  /** Every matching author of a post before the first `Broken` one is seen
      once the page is scanned. */
  lemma {:induction false} SearchPageFinds(s: Searcher, page: int, posts: seq<Post>, fetch: int -> Option<UserInfo>, i: int)
    requires Inv(s, fetch)
    requires 0 <= i < |posts| && (forall j :: 0 <= j <= i ==> posts[j].Post?)
    requires Matches(s.keyword, posts[i], fetch)
    ensures AuthorId(posts[i]).value in SearchPage(s, page, posts, fetch).seen
    decreases |posts|
  {
    var s1 := ScanPost(s, page, posts[0], fetch);
    assert SearchPage(s, page, posts, fetch) == SearchPage(s1, page, posts[1..], fetch);
    if i == 0 {
      ScanPostFinds(s, page, posts[0], fetch);
    } else {
      ScanPostKeepsInv(s, page, posts[0], fetch);
      assert posts[1..][i - 1] == posts[i];
      SearchPageFinds(s1, page, posts[1..], fetch, i - 1);
    }
  }

  /** Whatever order the pages run in, every matching author of a readable
      post (one before any `Broken` post of its page) is reported.
      `SearchAllKeepsInv` gives the other half: no user is reported
      twice and every report carries a name holding the keyword. */
  lemma {:induction false} SearchAllFinds(s: Searcher, pages: seq<(int, seq<Post>)>, fetch: int -> Option<UserInfo>,
                                          k: int, i: int)
    requires Inv(s, fetch)
    requires 0 <= k < |pages| && 0 <= i < |pages[k].1| && (forall j :: 0 <= j <= i ==> pages[k].1[j].Post?)
    requires Matches(s.keyword, pages[k].1[i], fetch)
    ensures var r := SearchAll(s, pages, fetch);
            var uid := AuthorId(pages[k].1[i]).value;
            uid in r.seen && exists j :: 0 <= j < |r.found| && r.found[j].uid == uid
    decreases |pages|
  {
    var s1 := SearchPage(s, pages[0].0, pages[0].1, fetch);
    var r := SearchAll(s, pages, fetch);
    assert r == SearchAll(s1, pages[1..], fetch);
    var uid := AuthorId(pages[k].1[i]).value;
    if k == 0 {
      SearchPageFinds(s, pages[0].0, pages[0].1, fetch, i);
    } else {
      SearchPageKeepsInv(s, pages[0].0, pages[0].1, fetch);
      assert pages[1..][k - 1] == pages[k];
      SearchAllFinds(s1, pages[1..], fetch, k - 1, i);
    }
    assert uid in r.seen;
    SearchAllKeepsInv(s, pages, fetch);
  }

  /** The same author on two pages is reported once, on the first page
      processed. */
  lemma DuplicateAuthorReportedOnce(keyword: string, fetch: int -> Option<UserInfo>, uid: int)
    requires uid != 0 && fetch(uid).Some? && Contains(fetch(uid).value.name, keyword)
    ensures var post := Post(Some(uid), None);
            var r := SearchAll(NewSearcher(keyword), [(1, [post]), (2, [post])], fetch);
            r.found == [Found(uid, fetch(uid).value, 1)] && r.fetches == [uid]
  {
    var post := Post(Some(uid), None);
    var s0 := NewSearcher(keyword);
    assert [post][0] == post && [post][1..] == [];
    var s1 := ScanPost(s0, 1, post, fetch);
    assert SearchPage(s0, 1, [post], fetch) == SearchPage(s1, 1, [], fetch) == s1;
    var s2 := ScanPost(s1, 2, post, fetch);
    assert SearchPage(s1, 2, [post], fetch) == SearchPage(s2, 2, [], fetch) == s2;
    assert SearchAll(s0, [(1, [post]), (2, [post])], fetch) == SearchAll(s1, [(2, [post])], fetch);
    assert SearchAll(s1, [(2, [post])], fetch) == s2;
  }
}
