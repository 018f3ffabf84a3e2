/** The server-side catalogue page (`components/Shop.jsx`): the filter state and the
    query string every change of it is fetched with. */
module Shop {
  import opened Wrappers
  import opened Text
  import Uri

  const AllCategories: string := "all"
  const AllSubjects: string := "All Subjects"
  const PageSize: string := "12"

  datatype ShopState = ShopState(page: int, category: string, subject: string, sort: string, search: string)

  /** The state the page opens with. */
  const Initial: ShopState := ShopState(1, AllCategories, "", "newest", "")

  /** A subject is sent unless it is empty or the "All Subjects" entry. */
  predicate SendsSubject(s: ShopState) {
    s.subject != "" && s.subject != AllSubjects
  }

  /** The parameters `fetchNotes` builds: page and limit always, the rest when chosen. */
  function Query(s: ShopState): (ps: Uri.QueryParams)
    ensures |ps| >= 2 && ps[0] == ("page", IntToString(s.page)) && ps[1] == ("limit", PageSize)
    ensures Uri.Names(ps) == ["page", "limit"]
      + ((if s.category != AllCategories then ["category"] else [])
      + ((if SendsSubject(s) then ["subject"] else [])
      + ((if s.sort != "" then ["sort"] else [])
      + (if s.search != "" then ["search"] else []))))
    ensures s.category != AllCategories ==> Uri.Lookup(ps, "category") == Some(s.category)
    ensures SendsSubject(s) ==> Uri.Lookup(ps, "subject") == Some(s.subject)
    ensures s.sort != "" ==> Uri.Lookup(ps, "sort") == Some(s.sort)
    ensures s.search != "" ==> Uri.Lookup(ps, "search") == Some(s.search)
  {
    var head := [("page", IntToString(s.page)), ("limit", PageSize)];
    assert Uri.Names(head) == ["page", "limit"];
    var ps := head
      + (Uri.AppendIf(s.category != AllCategories, "category", s.category)
      + (Uri.AppendIf(SendsSubject(s), "subject", s.subject)
      + (Uri.AppendIf(s.sort != "", "sort", s.sort)
      + Uri.AppendIf(s.search != "", "search", s.search))));
    ChainFacts(head, s.category != AllCategories, SendsSubject(s), s.sort != "", s.search != "",
      s.category, s.subject, s.sort, s.search, ps);
    ps
  }

  /** The facts about a head carrying page and limit followed by four optional appends,
      stated for any flags and values. */
  lemma ChainFacts(head: Uri.QueryParams, a3: bool, a4: bool, a5: bool, a6: bool,
                   v3: string, v4: string, v5: string, v6: string, ps: Uri.QueryParams)
    requires Uri.Names(head) == ["page", "limit"]
    requires ps == head
      + (Uri.AppendIf(a3, "category", v3) + (Uri.AppendIf(a4, "subject", v4)
      + (Uri.AppendIf(a5, "sort", v5) + Uri.AppendIf(a6, "search", v6))))
    ensures Uri.Names(ps) == ["page", "limit"]
      + ((if a3 then ["category"] else []) + ((if a4 then ["subject"] else [])
      + ((if a5 then ["sort"] else []) + (if a6 then ["search"] else []))))
    ensures a3 ==> Uri.Lookup(ps, "category") == Some(v3)
    ensures a4 ==> Uri.Lookup(ps, "subject") == Some(v4)
    ensures a5 ==> Uri.Lookup(ps, "sort") == Some(v5)
    ensures a6 ==> Uri.Lookup(ps, "search") == Some(v6)
  {
    var p3 := Uri.AppendIf(a3, "category", v3);
    var p4 := Uri.AppendIf(a4, "subject", v4);
    var p5 := Uri.AppendIf(a5, "sort", v5);
    var p6 := Uri.AppendIf(a6, "search", v6);
    var rest := p3 + (p4 + (p5 + p6));
    assert Uri.Names(ps) == ["page", "limit"]
      + ((if a3 then ["category"] else []) + ((if a4 then ["subject"] else [])
      + ((if a5 then ["sort"] else []) + (if a6 then ["search"] else [])))) by {
      QueryNames(head, p3, p4, p5, p6);
    }
    assert a3 ==> Uri.Lookup(ps, "category") == Some(v3) by {
      TailLookup(head, rest, "category");
      Uri.AppendIfFinds(a3, "category", v3, p4 + (p5 + p6));
    }
    assert a4 ==> Uri.Lookup(ps, "subject") == Some(v4) by {
      TailLookup(head, rest, "subject");
      Uri.AppendIfSkips(a3, "category", v3, p4 + (p5 + p6), "subject");
      Uri.AppendIfFinds(a4, "subject", v4, p5 + p6);
    }
    assert a5 ==> Uri.Lookup(ps, "sort") == Some(v5) by {
      TailLookup(head, rest, "sort");
      Uri.AppendIfSkips(a3, "category", v3, p4 + (p5 + p6), "sort");
      Uri.AppendIfSkips(a4, "subject", v4, p5 + p6, "sort");
      Uri.AppendIfFinds(a5, "sort", v5, p6);
    }
    assert a6 ==> Uri.Lookup(ps, "search") == Some(v6) by {
      TailLookup(head, rest, "search");
      Uri.AppendIfSkips(a3, "category", v3, p4 + (p5 + p6), "search");
      Uri.AppendIfSkips(a4, "subject", v4, p5 + p6, "search");
      Uri.AppendIfSkips(a5, "sort", v5, p6, "search");
      assert Uri.Lookup(p6, "search") == Some(v6) || !a6;
    }
  }

  lemma QueryNames(head: Uri.QueryParams, p3: Uri.QueryParams, p4: Uri.QueryParams,
                   p5: Uri.QueryParams, p6: Uri.QueryParams)
    ensures Uri.Names(head + (p3 + (p4 + (p5 + p6))))
      == Uri.Names(head) + (Uri.Names(p3) + (Uri.Names(p4) + (Uri.Names(p5) + Uri.Names(p6))))
  {
    Uri.NamesConcat(p5, p6);
    Uri.NamesConcat(p4, p5 + p6);
    Uri.NamesConcat(p3, p4 + (p5 + p6));
    Uri.NamesConcat(head, p3 + (p4 + (p5 + p6)));
  }

  /** A name the fixed head does not carry is looked up in the rest. */
  lemma TailLookup(head: Uri.QueryParams, rest: Uri.QueryParams, name: string)
    requires name != "page" && name != "limit"
    requires Uri.Names(head) == ["page", "limit"]
    ensures Uri.Lookup(head + rest, name) == Uri.Lookup(rest, name)
  {
    Uri.LookupConcat(head, rest, name);
  }

  /** `handleSearch`: back to the first page; the term itself is already in the state. */
  function HandleSearch(s: ShopState): (r: ShopState)
    ensures r.page == 1
    ensures r.(page := s.page) == s
  {
    s.(page := 1)
  }

  /** `handleClearFilters`. */
  function ClearFilters(s: ShopState): (r: ShopState)
    ensures r.page == 1 && r.category == AllCategories && r.subject == AllSubjects
    ensures r.sort == "newest" && r.search == ""
  {
    ShopState(1, AllCategories, AllSubjects, "newest", "")
  }

  /** After a reset the request carries exactly page 1, twelve per page and the newest-first sort. */
  lemma ClearedQuery(s: ShopState)
    ensures Query(ClearFilters(s)) == [("page", "1"), ("limit", PageSize), ("sort", "newest")]
  {
    assert IntToString(1) == "1" by {
      assert NatToString(1) == [DigitChar(1)];
    }
    var ps := Query(ClearFilters(s));
    assert Uri.Names(ps) == ["page", "limit", "sort"];
    assert Uri.Lookup(ps, "sort") == Some("newest");
  }

  /** A reset fetches what the page fetched when it opened. */
  lemma ClearedMatchesInitial(s: ShopState)
    ensures Query(ClearFilters(s)) == Query(Initial)
  {
    ClearedQuery(s);
    assert IntToString(1) == "1" by {
      assert NatToString(1) == [DigitChar(1)];
    }
    var ps := Query(Initial);
    assert Uri.Names(ps) == ["page", "limit", "sort"];
    assert Uri.Lookup(ps, "sort") == Some("newest");
  }
}
