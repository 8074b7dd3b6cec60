/** The list controller: the working set of posts, kept in descending
    `dateCreated` order after every load, the search term and its filtered
    view, the edit selection and the form-visibility flag. */
module BlogList {
  import opened Wrappers
  import opened Text
  import opened BlogModel
  import BlogService

  // ---------------------------------------------------------------------
  // Sorting by dateCreated, newest first, stably

  ghost predicate SortedByDateDesc(s: seq<Post>) {
    forall i, j :: 0 <= i < j < |s| ==> s[i].dateCreated >= s[j].dateCreated
  }

  /** The posts of `s` created at `date`, in their order in `s`. */
  function WithDate(s: seq<Post>, date: int): seq<Post> {
    if s == [] then []
    else if s[0].dateCreated == date then [s[0]] + WithDate(s[1..], date)
    else WithDate(s[1..], date)
  }

  /** Places `p` before the first post of `s` that is not newer than it. */
  function InsertByDate(p: Post, s: seq<Post>): seq<Post> {
    if s == [] || p.dateCreated >= s[0].dateCreated then [p] + s
    else [s[0]] + InsertByDate(p, s[1..])
  }

  lemma PrependSorted(p: Post, s: seq<Post>)
    requires SortedByDateDesc(s)
    requires forall q | q in s :: p.dateCreated >= q.dateCreated
    ensures SortedByDateDesc([p] + s)
  {
    var t := [p] + s;
    forall i, j | 0 <= i < j < |t|
      ensures t[i].dateCreated >= t[j].dateCreated
    {
      if i == 0 {
        assert t[j] == s[j - 1] && t[j] in s;
      } else {
        assert t[i] == s[i - 1] && t[j] == s[j - 1];
      }
    }
  }

  lemma {:induction false} InsertByDatePermutation(p: Post, s: seq<Post>)
    ensures multiset(InsertByDate(p, s)) == multiset([p] + s)
  {
    if s != [] && p.dateCreated < s[0].dateCreated {
      InsertByDatePermutation(p, s[1..]);
      assert s == [s[0]] + s[1..];
    }
  }

  lemma {:induction false} InsertByDateSorted(p: Post, s: seq<Post>)
    requires SortedByDateDesc(s)
    ensures SortedByDateDesc(InsertByDate(p, s))
  {
    if s == [] || p.dateCreated >= s[0].dateCreated {
      forall q | q in s
        ensures p.dateCreated >= q.dateCreated
      {
        var j :| 0 <= j < |s| && s[j] == q;
        assert s[0].dateCreated >= s[j].dateCreated || j == 0;
      }
      PrependSorted(p, s);
    } else {
      var rest := InsertByDate(p, s[1..]);
      assert SortedByDateDesc(s[1..]) by {
        forall i, j | 0 <= i < j < |s[1..]|
          ensures s[1..][i].dateCreated >= s[1..][j].dateCreated
        {
          assert s[1..][i] == s[i + 1] && s[1..][j] == s[j + 1];
        }
      }
      InsertByDateSorted(p, s[1..]);
      InsertByDatePermutation(p, s[1..]);
      forall q | q in rest
        ensures s[0].dateCreated >= q.dateCreated
      {
        assert q in multiset([p] + s[1..]);
        if q != p {
          var j :| 0 <= j < |s[1..]| && s[1..][j] == q;
          assert s[j + 1] == q;
        }
      }
      PrependSorted(s[0], rest);
    }
  }

  /** Inserting `p` keeps every date's posts in order, `p` first among its own. */
  lemma {:induction false} InsertByDateStable(p: Post, s: seq<Post>, date: int)
    ensures WithDate(InsertByDate(p, s), date) == WithDate([p] + s, date)
  {
    if s != [] && p.dateCreated < s[0].dateCreated {
      var rest := InsertByDate(p, s[1..]);
      InsertByDateStable(p, s[1..], date);
      assert ([s[0]] + rest)[1..] == rest;
      assert ([p] + s)[1..] == s;
      assert ([p] + s[1..])[1..] == s[1..];
      // p is older than s[0], so at most one of the two is kept
      if s[0].dateCreated == date {
        calc {
          WithDate(InsertByDate(p, s), date);
          [s[0]] + WithDate(rest, date);
          [s[0]] + WithDate([p] + s[1..], date);
          [s[0]] + WithDate(s[1..], date);
          WithDate([p] + s, date);
        }
      } else if p.dateCreated == date {
        calc {
          WithDate(InsertByDate(p, s), date);
          WithDate(rest, date);
          WithDate([p] + s[1..], date);
          [p] + WithDate(s[1..], date);
          [p] + WithDate(s, date);
          WithDate([p] + s, date);
        }
      } else {
        calc {
          WithDate(InsertByDate(p, s), date);
          WithDate(rest, date);
          WithDate([p] + s[1..], date);
          WithDate(s[1..], date);
          WithDate([p] + s, date);
        }
      }
    }
  }

  /** `blogs.sort((a, b) => b.dateCreated - a.dateCreated)`: newest first
      and a permutation of the input. The comparator keeps posts with equal
      dates in their order, as the engine's sort is stable
      (`SortByDateDescStable`). */
  function SortByDateDesc(s: seq<Post>): (r: seq<Post>)
    ensures SortedByDateDesc(r)
    ensures multiset(r) == multiset(s)
  {
    if s == [] then []
    else
      var sorted := SortByDateDesc(s[1..]);
      InsertByDateSorted(s[0], sorted);
      InsertByDatePermutation(s[0], sorted);
      assert s == [s[0]] + s[1..];
      InsertByDate(s[0], sorted)
  }

  /** The sort is stable: posts with the same date keep their input order. */
  lemma {:induction false} SortByDateDescStable(s: seq<Post>, date: int)
    ensures WithDate(SortByDateDesc(s), date) == WithDate(s, date)
  {
    if s != [] {
      var sorted := SortByDateDesc(s[1..]);
      SortByDateDescStable(s[1..], date);
      InsertByDateStable(s[0], sorted, date);
      assert ([s[0]] + sorted)[1..] == sorted;
    }
  }

  lemma WithDateHead(s: seq<Post>)
    requires s != []
    ensures WithDate(s, s[0].dateCreated) != []
  {
  }

  lemma WithDateWitness(s: seq<Post>, date: int)
    requires WithDate(s, date) != []
    ensures exists j :: 0 <= j < |s| && s[j].dateCreated == date
  {
    if s[0].dateCreated != date {
      WithDateWitness(s[1..], date);
      var j :| 0 <= j < |s[1..]| && s[1..][j].dateCreated == date;
      assert s[j + 1].dateCreated == date;
    }
  }

  /** Two newest-first sequences that agree on the posts of every date are
      equal. */
  lemma {:induction false} SortedByDateUnique(r1: seq<Post>, r2: seq<Post>)
    requires SortedByDateDesc(r1) && SortedByDateDesc(r2)
    requires forall date :: WithDate(r1, date) == WithDate(r2, date)
    ensures r1 == r2
    decreases |r1|
  {
    if r1 == [] {
      if r2 != [] {
        WithDateHead(r2);
        assert false;
      }
    } else if r2 == [] {
      WithDateHead(r1);
      assert false;
    } else {
      var d1, d2 := r1[0].dateCreated, r2[0].dateCreated;
      assert WithDate(r1, d1) != [] && WithDate(r2, d2) != [];
      WithDateWitness(r2, d1);
      WithDateWitness(r1, d2);
      assert d1 == d2;
      assert r1[0] == WithDate(r1, d1)[0] == WithDate(r2, d1)[0] == r2[0];
      forall date
        ensures WithDate(r1[1..], date) == WithDate(r2[1..], date)
      {
        var head := if r1[0].dateCreated == date then [r1[0]] else [];
        assert WithDate(r1, date) == head + WithDate(r1[1..], date);
        assert WithDate(r2, date) == head + WithDate(r2[1..], date);
        assert WithDate(r1[1..], date) == WithDate(r1, date)[|head|..];
        assert WithDate(r2[1..], date) == WithDate(r2, date)[|head|..];
      }
      assert SortedByDateDesc(r1[1..]) by {
        forall i, j | 0 <= i < j < |r1| - 1
          ensures r1[1..][i].dateCreated >= r1[1..][j].dateCreated
        {
          assert r1[1..][i] == r1[i + 1] && r1[1..][j] == r1[j + 1];
        }
      }
      assert SortedByDateDesc(r2[1..]) by {
        forall i, j | 0 <= i < j < |r2| - 1
          ensures r2[1..][i].dateCreated >= r2[1..][j].dateCreated
        {
          assert r2[1..][i] == r2[i + 1] && r2[1..][j] == r2[j + 1];
        }
      }
      SortedByDateUnique(r1[1..], r2[1..]);
      assert r1 == [r1[0]] + r1[1..] && r2 == [r2[0]] + r2[1..];
    }
  }

  /** Any stable newest-first sort of `s` yields exactly `SortByDateDesc(s)`,
      so the choice of sorting algorithm does not matter. */
  lemma StableSortIsUnique(s: seq<Post>, r: seq<Post>)
    requires SortedByDateDesc(r)
    requires forall date :: WithDate(r, date) == WithDate(s, date)
    ensures r == SortByDateDesc(s)
  {
    forall date
      ensures WithDate(r, date) == WithDate(SortByDateDesc(s), date)
    {
      SortByDateDescStable(s, date);
    }
    SortedByDateUnique(r, SortByDateDesc(s));
  }

  // ---------------------------------------------------------------------
  // Searching by username

  /** `blog.username.toLowerCase().includes(searchTerm.toLowerCase())`:
      the lower-cased term occurs somewhere in the lower-cased username. */
  predicate MatchesSearch(p: Post, term: string): (ok: bool)
    ensures ok <==> exists i :: OccursAt(Lower(p.username), Lower(term), i)
  {
    IncludesIffOccurs(Lower(p.username), Lower(term));
    Includes(Lower(p.username), Lower(term))
  }

  /** `a` is `b` with some elements left out. */
  ghost predicate IsSubsequence(a: seq<Post>, b: seq<Post>) {
    if a == [] then true
    else if b == [] then false
    else (a[0] == b[0] && IsSubsequence(a[1..], b[1..])) || IsSubsequence(a, b[1..])
  }

  /** `blogs.filter(...)`: exactly the matching posts, each as often as in
      `blogs`, in the order of `blogs`. */
  function FilterByUsername(blogs: seq<Post>, term: string): (r: seq<Post>)
    ensures forall p :: multiset(r)[p] == if MatchesSearch(p, term) then multiset(blogs)[p] else 0
    ensures IsSubsequence(r, blogs)
  {
    if blogs == [] then []
    else
      var rest := FilterByUsername(blogs[1..], term);
      assert blogs == [blogs[0]] + blogs[1..];
      if MatchesSearch(blogs[0], term) then [blogs[0]] + rest else rest
  }

  lemma {:induction false} FilterByUsernameEmptyTerm(blogs: seq<Post>)
    ensures FilterByUsername(blogs, "") == blogs
  {
    if blogs != [] {
      FilterByUsernameEmptyTerm(blogs[1..]);
    }
  }

  /** A post is shown exactly when it is in the working set and its
      username contains the term, ignoring ASCII case. */
  lemma FilterMembership(blogs: seq<Post>, term: string, p: Post)
    ensures p in FilterByUsername(blogs, term) <==>
            p in blogs && exists i :: OccursAt(Lower(p.username), Lower(term), i)
  {
    var r := FilterByUsername(blogs, term);
    assert p in r <==> multiset(r)[p] > 0;
    assert p in blogs <==> multiset(blogs)[p] > 0;
  }

  lemma SearchExampleMatches(alice: Post, albert: Post, bob: Post)
    requires alice.username == "alice" && albert.username == "Albert" && bob.username == "bob"
    ensures MatchesSearch(alice, "AL") && MatchesSearch(albert, "AL") && !MatchesSearch(bob, "AL")
  {
    assert Lower("AL") == "al";
    assert Lower("alice") == "alice";
    assert Lower("Albert") == "albert";
    assert Lower("bob") == "bob";
    assert "alice"[..2] == "al";
    assert "albert"[..2] == "al";
    assert "bob"[..2][0] != "al"[0];
    assert "bob"[1..] == "ob";
    assert "ob"[..2][0] != "al"[0];
    assert "ob"[1..] == "b";
  }

  /** Of three posts where only the last fails to match, the first two are kept. */
  lemma FilterFirstTwoOfThree(a: Post, b: Post, c: Post, term: string)
    requires MatchesSearch(a, term) && MatchesSearch(b, term) && !MatchesSearch(c, term)
    ensures FilterByUsername([a, b, c], term) == [a, b]
  {
    assert [a, b, c][1..] == [b, c];
    assert [b, c][1..] == [c];
    assert [c][1..] == [];
    calc {
      FilterByUsername([a, b, c], term);
      [a] + FilterByUsername([b, c], term);
      [a] + ([b] + FilterByUsername([c], term));
      [a] + ([b] + FilterByUsername([], term));
      [a, b];
    }
  }

  /** Searching "AL" among alice, Albert and bob shows alice and Albert,
      in that order. */
  lemma SearchExample(alice: Post, albert: Post, bob: Post)
    requires alice.username == "alice" && albert.username == "Albert" && bob.username == "bob"
    ensures FilterByUsername([alice, albert, bob], "AL") == [alice, albert]
  {
    SearchExampleMatches(alice, albert, bob);
    FilterFirstTwoOfThree(alice, albert, bob, "AL");
  }

  // ---------------------------------------------------------------------
  // The component

  class BlogListComponent {
    const apiUrl: string
    var blogs: seq<Post>
    var selectedBlogForEdit: Option<Post>
    var isFormVisible: bool
    var filteredBlogs: seq<Post>
    var searchTerm: string

    ghost var requests: seq<BlogService.Request>
    ghost var toasts: seq<Toast>

    ghost predicate Valid()
      reads this
    {
      SortedByDateDesc(blogs)
    }

    constructor (apiUrl: string)
      ensures Valid() && this.apiUrl == apiUrl
      ensures blogs == [] && selectedBlogForEdit.None? && !isFormVisible
      ensures filteredBlogs == [] && searchTerm == ""
      ensures requests == [] && toasts == []
    {
      this.apiUrl := apiUrl;
      blogs, selectedBlogForEdit, isFormVisible := [], None, false;
      filteredBlogs, searchTerm := [], "";
      requests, toasts := [], [];
    }

    /** One `getAll` and, if it delivers, its posts newest first. A failure
        has no handler and changes nothing. */
    method LoadBlogs(outcome: BlogService.Response<seq<Post>>)
      requires Valid()
      modifies this
      ensures Valid()
      ensures requests == old(requests) + [BlogService.GetAll(apiUrl)]
      ensures outcome.Ok? ==> blogs == SortByDateDesc(outcome.value)
      ensures outcome.Ok? ==> multiset(blogs) == multiset(outcome.value)
      ensures outcome.Failed? ==> blogs == old(blogs)
      ensures filteredBlogs == old(filteredBlogs) && searchTerm == old(searchTerm)
      ensures selectedBlogForEdit == old(selectedBlogForEdit) && isFormVisible == old(isFormVisible)
      ensures toasts == old(toasts)
    {
      requests := requests + [BlogService.GetAll(apiUrl)];
      var result := BlogService.CatchError(outcome);
      if result.Success? {
        blogs := SortByDateDesc(result.value);
      }
    }

    /** The search box's two-way binding. */
    method SetSearchTerm(term: string)
      modifies this
      ensures searchTerm == term
      ensures blogs == old(blogs) && filteredBlogs == old(filteredBlogs)
      ensures selectedBlogForEdit == old(selectedBlogForEdit) && isFormVisible == old(isFormVisible)
      ensures requests == old(requests) && toasts == old(toasts)
    {
      searchTerm := term;
    }

    /** Recomputes the filtered view from the working set and the term. */
    method FilterBlogs()
      modifies this
      ensures searchTerm != "" ==> filteredBlogs == FilterByUsername(blogs, searchTerm)
      ensures searchTerm == "" ==> filteredBlogs == blogs
      ensures filteredBlogs == FilterByUsername(blogs, searchTerm)
      ensures blogs == old(blogs) && searchTerm == old(searchTerm)
      ensures selectedBlogForEdit == old(selectedBlogForEdit) && isFormVisible == old(isFormVisible)
      ensures requests == old(requests) && toasts == old(toasts)
    {
      if searchTerm != "" {
        filteredBlogs := FilterByUsername(blogs, searchTerm);
      } else {
        FilterByUsernameEmptyTerm(blogs);
        filteredBlogs := blogs;
      }
    }

    method StartNewBlog()
      modifies this
      ensures selectedBlogForEdit.None? && isFormVisible
      ensures blogs == old(blogs) && filteredBlogs == old(filteredBlogs) && searchTerm == old(searchTerm)
      ensures requests == old(requests) && toasts == old(toasts)
    {
      selectedBlogForEdit := None;
      isFormVisible := true;
    }

    /** Selects a copy of `blog`; posts are values, so the working set can
        never be changed through the selection. */
    method StartEditBlog(blog: Post)
      modifies this
      ensures selectedBlogForEdit == Some(blog) && isFormVisible
      ensures blogs == old(blogs) && filteredBlogs == old(filteredBlogs) && searchTerm == old(searchTerm)
      ensures requests == old(requests) && toasts == old(toasts)
    {
      var copy := Post(blog.id, blog.username, blog.text, blog.dateCreated);
      selectedBlogForEdit := Some(copy);
      isFormVisible := true;
    }

    /** After the form reports a submission: clear the selection, reload
        once, and notify; the form stays visible. */
    method OnFormSubmit(reload: BlogService.Response<seq<Post>>)
      requires Valid()
      modifies this
      ensures Valid()
      ensures selectedBlogForEdit.None? && isFormVisible == old(isFormVisible)
      ensures requests == old(requests) + [BlogService.GetAll(apiUrl)]
      ensures blogs == if reload.Ok? then SortByDateDesc(reload.value) else old(blogs)
      ensures filteredBlogs == old(filteredBlogs) && searchTerm == old(searchTerm)
      ensures toasts == old(toasts) + [Toast(SuccessToast, "Blog list updated successfully", "Success")]
    {
      selectedBlogForEdit := None;
      LoadBlogs(reload);
      toasts := toasts + [Toast(SuccessToast, "Blog list updated successfully", "Success")];
    }

    method OnCancelEdit()
      modifies this
      ensures selectedBlogForEdit.None? && !isFormVisible
      ensures blogs == old(blogs) && filteredBlogs == old(filteredBlogs) && searchTerm == old(searchTerm)
      ensures requests == old(requests) && toasts == old(toasts)
    {
      selectedBlogForEdit := None;
      isFormVisible := false;
    }

    /** Deletes post `id` if the user confirms; `removal` is the outcome of
        the `delete` call and `reload` that of the reload it triggers. */
    method DeleteBlog(id: int, confirmed: bool,
                      removal: BlogService.Response<()>, reload: BlogService.Response<seq<Post>>)
      requires Valid()
      modifies this
      ensures Valid()
      ensures !confirmed ==> requests == old(requests) && toasts == old(toasts) && blogs == old(blogs)
      ensures confirmed && removal.Ok? ==>
        && requests == old(requests) + [BlogService.Delete(apiUrl, id), BlogService.GetAll(apiUrl)]
        && toasts == old(toasts) + [Toast(SuccessToast, "Blog deleted successfully", "Success")]
        && blogs == if reload.Ok? then SortByDateDesc(reload.value) else old(blogs)
      ensures confirmed && removal.Failed? ==>
        && requests == old(requests) + [BlogService.Delete(apiUrl, id)]
        && toasts == old(toasts) + [Toast(ErrorToast, "Failed to delete blog", "Error")]
        && blogs == old(blogs)
      ensures filteredBlogs == old(filteredBlogs) && searchTerm == old(searchTerm)
      ensures selectedBlogForEdit == old(selectedBlogForEdit) && isFormVisible == old(isFormVisible)
    {
      if confirmed {
        requests := requests + [BlogService.Delete(apiUrl, id)];
        match BlogService.CatchError(removal)
        case Success(_) =>
          toasts := toasts + [Toast(SuccessToast, "Blog deleted successfully", "Success")];
          LoadBlogs(reload);
        case Failure(_) =>
          toasts := toasts + [Toast(ErrorToast, "Failed to delete blog", "Error")];
      }
    }
  }
}
