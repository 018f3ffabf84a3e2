/** The blog page (`components/Blog.jsx`): six fixed posts, a category strip and a
    search box whose term filters the posts. */
module Blog {
  import opened Text
  import opened Lists
  import SearchBar

  datatype Post = Post(id: nat, title: string, category: string, excerpt: string)

  const AllCategories: string := "all"

  /** The posts the page shows, in page order. */
  const Posts: seq<Post> := [
    Post(1, "Effective Study Techniques for JEE/NEET", "STUDY TIPS",
      "Master the art of efficient studying with proven techniques specifically designed for JEE and NEET aspirants."),
    Post(2, "Top Architecture Colleges in India 2024", "ARCHITECTURE",
      "A comprehensive guide to the best architecture colleges in India, including admission criteria and placement records."),
    Post(3, "Life at IIT Delhi: A Student's Perspective", "CAMPUS LIFE",
      "An insider's look at the daily life, challenges, and experiences of students at IIT Delhi."),
    Post(4, "Create Your Perfect Study Space", "INTERIOR",
      "Design tips and organization hacks to create an optimal study environment at home."),
    Post(5, "Managing Exam Stress: Expert Tips", "HEALTH",
      "Learn effective strategies to cope with exam pressure and maintain mental well-being."),
    Post(6, "Documenting College Memories", "PHOTOGRAPHY",
      "Tips and techniques for capturing and preserving your precious college moments.")
  ]

  /** A post is shown when its title or excerpt holds the term and the category is "all" or its own. */
  predicate Shown(term: string, category: string, p: Post) {
    (MatchesCi(p.title, term) || MatchesCi(p.excerpt, term))
    && (category == AllCategories || p.category == category)
  }

  function ShownFn(term: string, category: string): Post -> bool {
    (p: Post) => Shown(term, category, p)
  }

  /** `filteredPosts` over any list of posts. */
  function FilteredPosts(posts: seq<Post>, term: string, category: string): (r: seq<Post>)
    ensures |r| <= |posts|
    ensures forall i :: 0 <= i < |r| ==> Shown(term, category, r[i])
    ensures multiset(r) <= multiset(posts)
  {
    Filter(posts, ShownFn(term, category))
  }

  /** A post is shown exactly when it is on the page and passes; shown posts keep the page order. */
  lemma FilteredPostsIff(posts: seq<Post>, more: seq<Post>, term: string, category: string, p: Post)
    ensures p in FilteredPosts(posts, term, category) <==> p in posts && Shown(term, category, p)
    ensures FilteredPosts(posts + more, term, category)
      == FilteredPosts(posts, term, category) + FilteredPosts(more, term, category)
  {
    FilterMembership(posts, ShownFn(term, category), p);
    FilterConcat(posts, more, ShownFn(term, category));
  }

  /** With no term and "all" selected, every post is shown in order. */
  lemma NoFilterShowsAll(posts: seq<Post>)
    ensures FilteredPosts(posts, "", AllCategories) == posts
  {
    forall i | 0 <= i < |posts| ensures ShownFn("", AllCategories)(posts[i]) {
      MatchesEmpty(posts[i].title);
    }
    FilterAll(posts, ShownFn("", AllCategories));
  }

  /** In particular the page opens with all six posts. */
  lemma AllPostsShown()
    ensures |FilteredPosts(Posts, "", AllCategories)| == 6
  {
    NoFilterShowsAll(Posts);
  }

  /** `handleSearch(term)` is handed the box's term on every keystroke, so the page shows
      exactly the posts that pass for what was typed, in the page's order. */
  lemma TypedTermFiltersPage(box: SearchBar.BoxState, value: string, posts: seq<Post>, category: string, p: Post)
    ensures p in FilteredPosts(posts, SearchBar.SearchChange(box, value).term, category)
      <==> p in posts && Shown(value, category, p)
  {
    FilteredPostsIff(posts, [], value, category, p);
  }

  /** The suggestion the search box shows for a post. */
  function AsSuggestion(p: Post): SearchBar.Suggestion {
    SearchBar.Suggestion(p.title, p.category, p.excerpt)
  }

  /** `handleSuggestionClick(suggestion)`: the page term becomes the post's title, so the
      clicked post stays on the page whenever its category is selected. */
  function SuggestionClick(p: Post): (term: string)
    ensures term == p.title
    ensures Shown(term, AllCategories, p) && Shown(term, p.category, p)
  {
    MatchesSelf(p.title);
    p.title
  }

  /** The box and the page nearly agree: a post the box offers for a term is on the page
      for that term with every category selected, unless the box matched its category
      alone, which the page's own filter does not search. */
  lemma SuggestedPostIsShown(term: string, p: Post)
    requires SearchBar.Matches(term, AsSuggestion(p))
    ensures Shown(term, AllCategories, p) || MatchesCi(p.category, term)
  {
  }
}
