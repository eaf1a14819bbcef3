/**
 * The `ClientsList` component: the search filter over the loaded page, the
 * highlighting of the search text, and the Previous / Next page buttons.
 */
module ClientsList {
  import opened Wrappers
  import opened Strings
  import opened Tables
  import opened Schema
  import opened ApplicationController
  import opened ClientsController
  import opened ApiClient
  import opened Sequences

  /** The component asks for pages of ten clients. */
  const PerPage: int := 10

  // ---------------------------------------------------------------- the filter

  /** A client matches when the lower-cased search occurs in its lower-cased name, email or phone. */
  predicate Matches(c: ClientJson, search: string) {
    var q := Lower(search);
    Contains(Lower(c.name), q) || Contains(Lower(c.email), q) || Contains(Lower(c.phone), q)
  }

  /** `filtered`: the loaded clients that match the search, in the order the backend sent them. */
  function Filtered(clients: seq<ClientJson>, search: string): (r: seq<ClientJson>)
    ensures Subsequence(r, clients)
    ensures forall c :: c in r <==> c in clients && Matches(c, search)
    decreases |clients|
  {
    if clients == [] then []
    else
      var rest := Filtered(clients[1..], search);
      assert forall c :: c in clients <==> c == clients[0] || c in clients[1..];
      if Matches(clients[0], search) then [clients[0]] + rest else rest
  }

  /** The filter keeps every occurrence of a matching client and none of the others. */
  lemma {:induction false} FilteredCount(clients: seq<ClientJson>, search: string)
    ensures forall c :: multiset(Filtered(clients, search))[c] == if Matches(c, search) then multiset(clients)[c] else 0
    decreases |clients|
  {
    if clients != [] {
      FilteredCount(clients[1..], search);
      assert clients == [clients[0]] + clients[1..];
    }
  }

  /** The filter keeps a list whose every client matches as it is. */
  lemma {:induction false} FilteredAllMatch(clients: seq<ClientJson>, search: string)
    requires forall i :: 0 <= i < |clients| ==> Matches(clients[i], search)
    ensures Filtered(clients, search) == clients
    decreases |clients|
  {
    if clients != [] {
      FilteredAllMatch(clients[1..], search);
    }
  }

  /** An empty search shows every loaded client. */
  lemma EmptySearchKeepsAll(clients: seq<ClientJson>)
    ensures Filtered(clients, "") == clients
  {
    assert Lower("") == "";
    forall i | 0 <= i < |clients|
      ensures Matches(clients[i], "")
    {
      ContainsEmpty(Lower(clients[i].name));
    }
    FilteredAllMatch(clients, "");
  }

  /** Filtering twice with the same search is filtering once. */
  lemma FilteredIdempotent(clients: seq<ClientJson>, search: string)
    ensures Filtered(Filtered(clients, search), search) == Filtered(clients, search)
  {
    var r := Filtered(clients, search);
    assert forall i :: 0 <= i < |r| ==> r[i] in r;
    FilteredAllMatch(r, search);
  }

  /** The filter works client by client: filtering a concatenation filters each part. */
  lemma {:induction false} FilteredConcat(a: seq<ClientJson>, b: seq<ClientJson>, search: string)
    ensures Filtered(a + b, search) == Filtered(a, search) + Filtered(b, search)
    decreases |a|
  {
    if a != [] {
      assert (a + b)[0] == a[0] && (a + b)[1..] == a[1..] + b;
      var fa, fb := Filtered(a[1..], search), Filtered(b, search);
      FilteredConcat(a[1..], b, search);
      if Matches(a[0], search) {
        assert Filtered(a + b, search) == [a[0]] + (fa + fb);
        assert Filtered(a, search) == [a[0]] + fa;
        assert [a[0]] + (fa + fb) == ([a[0]] + fa) + fb;
      } else {
        assert Filtered(a + b, search) == fa + fb;
      }
    } else {
      assert a + b == b;
    }
  }

  // ------------------------------------------------------------- highlighting

  /** The search text occurs at offset `k` of `text`, compared in lower case. */
  predicate MatchAt(text: string, q: string, k: int) {
    0 <= k && k + |q| <= |text| && Lower(text[k..k + |q|]) == Lower(q)
  }

  /** No match of `q` starts before offset `n` of `s`. */
  predicate NoMatchBefore(s: string, q: string, n: int) {
    forall k :: 0 <= k < n ==> !MatchAt(s, q, k)
  }

  /**
   * `text.split(new RegExp(`(${query})`, 'gi'))` for a query without regular
   * expression syntax: the text before a match, the match, and so on, scanning
   * from the left for non-overlapping matches. `plain` is the text already
   * passed since the last match.
   */
  function SplitFrom(text: string, q: string, plain: string): (parts: seq<string>)
    requires q != []
    ensures |parts| % 2 == 1
    ensures forall i :: 0 <= i < |parts| && i % 2 == 1 ==> Lower(parts[i]) == Lower(q)
    decreases |text|
  {
    if |text| < |q| then [plain + text]
    else if Lower(text[..|q|]) == Lower(q) then [plain, text[..|q|]] + SplitFrom(text[|q|..], q, "")
    else SplitFrom(text[1..], q, plain + [text[0]])
  }

  function Split(text: string, q: string): seq<string>
    requires q != []
  {
    SplitFrom(text, q, "")
  }

  function Concat(parts: seq<string>): string {
    if parts == [] then "" else parts[0] + Concat(parts[1..])
  }

  lemma {:induction false} ConcatAppend(a: seq<string>, b: seq<string>)
    ensures Concat(a + b) == Concat(a) + Concat(b)
    decreases |a|
  {
    if a != [] {
      assert (a + b)[0] == a[0] && (a + b)[1..] == a[1..] + b;
      ConcatAppend(a[1..], b);
      assert a[0] + (Concat(a[1..]) + Concat(b)) == (a[0] + Concat(a[1..])) + Concat(b);
    } else {
      assert a + b == b;
    }
  }

  /** The split loses nothing: its parts put back together are the text. */
  lemma {:induction false} SplitFromConcat(text: string, q: string, plain: string)
    requires q != []
    ensures Concat(SplitFrom(text, q, plain)) == plain + text
    decreases |text|
  {
    if |text| < |q| {
    } else if Lower(text[..|q|]) == Lower(q) {
      SplitFromConcat(text[|q|..], q, "");
      ConcatAppend([plain, text[..|q|]], SplitFrom(text[|q|..], q, ""));
      assert text[..|q|] + text[|q|..] == text;
    } else {
      SplitFromConcat(text[1..], q, plain + [text[0]]);
      assert plain + [text[0]] + text[1..] == plain + text;
    }
  }

  /** Lower-casing commutes with taking a slice. */
  lemma LowerSlice(s: string, i: int, j: int)
    requires 0 <= i <= j <= |s|
    ensures Lower(s)[i..j] == Lower(s[i..j])
  {
  }

  /** The parts that equal `q` in lower case are exactly those at odd positions. */
  predicate MatchesAtOdd(parts: seq<string>, q: string) {
    forall i :: 0 <= i < |parts| ==> (Lower(parts[i]) == Lower(q) <==> i % 2 == 1)
  }

  /** A prefix of text in which no match starts, beyond its first character, is not the query. */
  lemma NoMatchPrefix(s: string, q: string, n: int, len: int)
    requires q != [] && 1 <= n && NoMatchBefore(s, q, n) && 0 <= len <= |s|
    ensures Lower(s[..len]) != Lower(q)
  {
    if len == |q| {
      assert !MatchAt(s, q, 0);
      assert s[0..|q|] == s[..len];
    } else {
      assert |Lower(s[..len])| != |Lower(q)|;
    }
  }

  /** Passing over a character where no match starts keeps the scan's invariant. */
  lemma NoMatchExtend(plain: string, text: string, q: string)
    requires q != [] && |q| <= |text| && Lower(text[..|q|]) != Lower(q)
    requires NoMatchBefore(plain + text, q, |plain|)
    ensures NoMatchBefore((plain + [text[0]]) + text[1..], q, |plain| + 1)
  {
    var s := plain + text;
    assert (plain + [text[0]]) + text[1..] == s;
    forall k | 0 <= k < |plain| + 1
      ensures !MatchAt(s, q, k)
    {
      if k == |plain| {
        assert s[k..k + |q|] == text[..|q|];
      }
    }
  }

  /** A plain part and a match in front of parts marked at odd positions keep them so. */
  lemma MarksCons(plain: string, m: string, rest: seq<string>, q: string)
    requires Lower(plain) != Lower(q) && Lower(m) == Lower(q) && MatchesAtOdd(rest, q)
    ensures MatchesAtOdd([plain, m] + rest, q)
  {
    var parts := [plain, m] + rest;
    forall i | 2 <= i < |parts|
      ensures Lower(parts[i]) == Lower(q) <==> i % 2 == 1
    {
      var j := i - 2;
      assert parts[i] == rest[j];
      assert j % 2 == i % 2;
    }
  }

  /** Only the matches are parts that equal the query in lower case: the text between them never does. */
  lemma {:induction false} SplitFromMarks(text: string, q: string, plain: string)
    requires q != [] && NoMatchBefore(plain + text, q, |plain|)
    ensures MatchesAtOdd(SplitFrom(text, q, plain), q)
    decreases |text|
  {
    if |text| < |q| {
      if |plain| == 0 {
        assert |Lower(plain + text)| != |Lower(q)|;
      } else {
        NoMatchPrefix(plain + text, q, |plain|, |plain + text|);
        assert (plain + text)[..|plain + text|] == plain + text;
      }
    } else if Lower(text[..|q|]) == Lower(q) {
      assert "" + text[|q|..] == text[|q|..];
      SplitFromMarks(text[|q|..], q, "");
      if |plain| == 0 {
        assert |Lower(plain)| != |Lower(q)|;
      } else {
        NoMatchPrefix(plain + text, q, |plain|, |plain|);
        assert (plain + text)[..|plain|] == plain;
      }
      MarksCons(plain, text[..|q|], SplitFrom(text[|q|..], q, ""), q);
    } else {
      NoMatchExtend(plain, text, q);
      SplitFromMarks(text[1..], q, plain + [text[0]]);
    }
  }

  /** A match anywhere in the text splits it into more than one part. */
  lemma {:induction false} SplitFromFinds(text: string, q: string, plain: string, k: int)
    requires q != [] && MatchAt(text, q, k)
    ensures |SplitFrom(text, q, plain)| > 1
    decreases |text|
  {
    if Lower(text[..|q|]) != Lower(q) {
      assert k != 0 by { assert text[0..|q|] == text[..|q|]; }
      assert text[1..][k - 1..k - 1 + |q|] == text[k..k + |q|];
      SplitFromFinds(text[1..], q, plain + [text[0]], k - 1);
    }
  }

  /** Conversely, a split into more than one part found a match. */
  lemma {:induction false} SplitFromFound(text: string, q: string, plain: string) returns (k: int)
    requires q != [] && |SplitFrom(text, q, plain)| > 1
    ensures MatchAt(text, q, k)
    decreases |text|
  {
    if Lower(text[..|q|]) == Lower(q) {
      k := 0;
      assert text[0..|q|] == text[..|q|];
    } else {
      var k1 := SplitFromFound(text[1..], q, plain + [text[0]]);
      assert text[1..][k1..k1 + |q|] == text[k1 + 1..k1 + 1 + |q|];
      k := k1 + 1;
    }
  }

  /** A match of the query in the text, in lower case, is an occurrence of the lower-cased query in the lower-cased text. */
  lemma MatchAtIffContains(text: string, q: string)
    ensures (exists k :: MatchAt(text, q, k)) <==> Contains(Lower(text), Lower(q))
  {
    if exists k :: MatchAt(text, q, k) {
      var k :| MatchAt(text, q, k);
      LowerSlice(text, k, k + |q|);
      ContainsAt(Lower(text), Lower(q), k);
    }
    if Contains(Lower(text), Lower(q)) {
      var k := ContainsWitness(Lower(text), Lower(q));
      LowerSlice(text, k, k + |q|);
      assert MatchAt(text, q, k);
    }
  }

  datatype Piece = Plain(text: string) | Marked(text: string)

  /** What `highlight` renders: the text itself, or its parts with the matches marked. */
  datatype Highlighted = Unchanged(text: string) | Pieces(pieces: seq<Piece>)

  /**
   * `highlight(text, query)`: an empty query gives back the text; otherwise
   * each part of the split is marked when it equals the query in lower case,
   * which is exactly the matched parts.
   */
  function Highlight(text: string, query: string): (h: Highlighted)
    ensures query == "" ==> h == Unchanged(text)
    ensures query != "" ==> h.Pieces? && |h.pieces| == |Split(text, query)|
    ensures query != "" ==> forall i :: 0 <= i < |h.pieces| ==>
              h.pieces[i].text == Split(text, query)[i] && (h.pieces[i].Marked? <==> i % 2 == 1)
  {
    if query == "" then Unchanged(text)
    else
      var parts := Split(text, query);
      assert "" + text == text;
      SplitFromMarks(text, query, "");
      var pieces := seq(|parts|, i requires 0 <= i < |parts| =>
        if Lower(parts[i]) == Lower(query) then Marked(parts[i]) else Plain(parts[i]));
      assert forall i :: 0 <= i < |pieces| ==> pieces[i].text == parts[i] && (pieces[i].Marked? <==> i % 2 == 1);
      Pieces(pieces)
  }

  function Texts(pieces: seq<Piece>): (r: seq<string>)
    ensures |r| == |pieces| && forall i :: 0 <= i < |pieces| ==> r[i] == pieces[i].text
  {
    seq(|pieces|, i requires 0 <= i < |pieces| => pieces[i].text)
  }

  /** Highlighting shows the whole text: the pieces put back together are the text. */
  lemma HighlightKeepsText(text: string, query: string)
    requires query != ""
    ensures Concat(Texts(Highlight(text, query).pieces)) == text
  {
    SplitFromConcat(text, query, "");
    assert Texts(Highlight(text, query).pieces) == Split(text, query);
  }

  /** Some piece is marked exactly when the lower-cased query occurs in the lower-cased text. */
  lemma HighlightMarksIffContains(text: string, query: string)
    requires query != ""
    ensures (exists i :: 0 <= i < |Highlight(text, query).pieces| && Highlight(text, query).pieces[i].Marked?)
            <==> Contains(Lower(text), Lower(query))
  {
    var h := Highlight(text, query);
    MatchAtIffContains(text, query);
    if Contains(Lower(text), Lower(query)) {
      var k :| MatchAt(text, query, k);
      SplitFromFinds(text, query, "", k);
      assert h.pieces[1].Marked?;
    }
    if exists i :: 0 <= i < |h.pieces| && h.pieces[i].Marked? {
      var k := SplitFromFound(text, query, "");
    }
  }

  // ------------------------------------------------------------------- paging

  /** `Math.max(1, p - 1)`. */
  function PreviousPage(p: int): (r: int)
    ensures r >= 1
    ensures p > 1 ==> r == p - 1
    ensures p <= 1 ==> r == 1
  {
    if 1 >= p - 1 then 1 else p - 1
  }

  predicate PreviousDisabled(page: int) {
    page == 1
  }

  /** Next is disabled once a page came back with fewer than `PerPage` clients. */
  predicate NextDisabled(clients: seq<ClientJson>) {
    |clients| < PerPage
  }

  /**
   * Against the backend, the page `page` comes back short exactly when the
   * table holds fewer than `page * PerPage` clients.
   */
  lemma NextDisabledIffLastPage(table: Table<Client>, page: int)
    requires page >= 1
    ensures NextDisabled(FetchClients(table, Some(page), Some(PerPage))) <==> |table.rows| < page * PerPage
  {
    var p := PaginationParams(Some(page), Some(PerPage));
    assert p == PageParams(page, PerPage);
  }

  /** A table that exactly fills the page leaves Next enabled, and the page after it is empty. */
  lemma FullLastPageThenEmpty(table: Table<Client>, page: int)
    requires page >= 1 && |table.rows| == page * PerPage
    ensures !NextDisabled(FetchClients(table, Some(page), Some(PerPage)))
    ensures FetchClients(table, Some(page + 1), Some(PerPage)) == []
  {
    NextDisabledIffLastPage(table, page);
    var p := PaginationParams(Some(page + 1), Some(PerPage));
    assert p == PageParams(page + 1, PerPage);
  }

  /** The component's state: the page, the search box, and the clients loaded for the page. */
  class ClientsListState {
    var page: int
    var search: string
    var clients: seq<ClientJson>

    ghost predicate Valid()
      reads this
    {
      page >= 1
    }

    constructor ()
      ensures Valid() && page == 1 && search == "" && clients == []
    {
      page := 1;
      search := "";
      clients := [];
    }

    /** The cards shown. */
    function Shown(): (r: seq<ClientJson>)
      reads this
      ensures forall c :: c in r <==> c in clients && Matches(c, search)
    {
      Filtered(clients, search)
    }

    /** A click on Previous; the button is disabled on page 1. */
    method Previous()
      requires Valid()
      modifies this
      ensures Valid()
      ensures old(page) == 1 ==> page == 1
      ensures old(page) > 1 ==> page == old(page) - 1
      ensures search == old(search) && clients == old(clients)
    {
      if !PreviousDisabled(page) {
        page := PreviousPage(page);
      }
    }

    /** A click on Next; the button is disabled after a short page. */
    method Next()
      requires Valid()
      modifies this
      ensures Valid()
      ensures NextDisabled(old(clients)) ==> page == old(page)
      ensures !NextDisabled(old(clients)) ==> page == old(page) + 1
      ensures search == old(search) && clients == old(clients)
    {
      if !NextDisabled(clients) {
        page := page + 1;
      }
    }

    /** Typing in the search box, or Clear (`setSearch('')`). */
    method SetSearch(s: string)
      requires Valid()
      modifies this
      ensures Valid()
      ensures search == s && page == old(page) && clients == old(clients)
    {
      search := s;
    }

    /** `fetchClients(page, perPage).then(setClients)`: the page's clients arrive. */
    method Loaded(data: seq<ClientJson>)
      requires Valid()
      modifies this
      ensures Valid()
      ensures clients == data && page == old(page) && search == old(search)
    {
      clients := data;
    }
  }
}
