/** The search box over a fixed list of fruit names: the items whose
    lower-cased text contains the lower-cased query, in list order. */
module SearchFilter {
  import opened Seqs
  import opened Text

  const SampleItems: seq<string> := ["Apple", "Banana", "Cherry", "Date", "Elderberry"]

  function MatchesQuery(query: string): string -> bool
  {
    (item: string) => Includes(Lower(item), Lower(query))
  }

  /** `items.filter(item => item.toLowerCase().includes(query.toLowerCase()))`. */
  function Search(items: seq<string>, query: string): seq<string>
  {
    Filter(items, MatchesQuery(query))
  }

  /** What the widget lists for the current query. */
  function Filtered(query: string): seq<string>
  {
    Search(SampleItems, query)
  }

  /** The results keep the items' order and add nothing. */
  lemma SearchIsSubsequence(items: seq<string>, query: string)
    ensures IsSubsequence(Search(items, query), items)
  {
    FilterIsSubsequence(items, MatchesQuery(query));
  }

  /** An item is listed iff its lower-cased text contains the lower-cased
      query. */
  lemma SearchMembership(items: seq<string>, query: string, item: string)
    ensures item in Search(items, query) <==> item in items && Includes(Lower(item), Lower(query))
  {
    FilterMembership(items, MatchesQuery(query), item);
  }

  /** The empty query lists every item in order. */
  lemma EmptyQueryShowsAll(items: seq<string>)
    ensures Search(items, "") == items
  {
    forall i | 0 <= i < |items|
      ensures MatchesQuery("")(items[i])
    {
      IncludesEmpty(Lower(items[i]));
    }
    FilterAll(items, MatchesQuery(""));
  }

  /** Queries with the same lower-cased text list the same items. */
  lemma CaseInsensitive(items: seq<string>, q1: string, q2: string)
    requires Lower(q1) == Lower(q2)
    ensures Search(items, q1) == Search(items, q2)
  {
    FilterCongruent(items, MatchesQuery(q1), MatchesQuery(q2));
  }

  /** Every string contains itself. */
  lemma IncludesSelf(s: string)
    ensures Includes(s, s)
  {
    IsPrefixIff(s, s);
  }

  /** A string containing `t` contains each character of `t`. */
  lemma IncludesChar(s: string, t: string, k: nat)
    requires Includes(s, t) && k < |t|
    ensures t[k] in s
  {
    IncludesAt(s, t);
    var i :| OccursAt(s, t, i);
    assert s[i + k] == t[k];
  }

  /** Filtering out every element leaves nothing. */
  lemma {:induction false} FilterNone<T>(s: seq<T>, p: T -> bool)
    requires forall i :: 0 <= i < |s| ==> !p(s[i])
    ensures Filter(s, p) == []
  {
    if s != [] {
      FilterNone(s[1..], p);
    }
  }

  /** A string with no character lower-casing like the query's `k`-th
      does not match the query. */
  lemma MissingCharNoMatch(item: string, query: string, k: nat)
    requires k < |query|
    requires forall j :: 0 <= j < |item| ==> LowerChar(item[j]) != LowerChar(query[k])
    ensures !MatchesQuery(query)(item)
  {
    if Includes(Lower(item), Lower(query)) {
      IncludesChar(Lower(item), Lower(query), k);
    }
  }

  /** No item after the first has a character lower-casing like the
      query's `k`-th, so none of them matches. */
  lemma LaterItemsMiss(items: seq<string>, query: string, k: nat)
    requires items != [] && k < |query|
    requires forall i, j :: 1 <= i < |items| && 0 <= j < |items[i]| ==> LowerChar(items[i][j]) != LowerChar(query[k])
    ensures forall i :: 0 <= i < |items[1..]| ==> !MatchesQuery(query)(items[1..][i])
  {
    forall i | 0 <= i < |items[1..]|
      ensures !MatchesQuery(query)(items[1..][i])
    {
      var item := items[1..][i];
      assert item == items[i + 1];
      MissingCharNoMatch(item, query, k);
    }
  }

  /** When the first item matches the query as a whole and no later item
      has a character that lower-cases like the query's `k`-th, the first
      item is the only result. */
  lemma OnlyFirstMatches(items: seq<string>, query: string, k: nat)
    requires items != [] && k < |query| && Lower(items[0]) == Lower(query)
    requires forall i, j :: 1 <= i < |items| && 0 <= j < |items[i]| ==> LowerChar(items[i][j]) != LowerChar(query[k])
    ensures Search(items, query) == [items[0]]
  {
    var p := MatchesQuery(query);
    LaterItemsMiss(items, query, k);
    FilterNone(items[1..], p);
    IncludesSelf(Lower(query));
    assert p(items[0]);
  }

  /** The query `Apple` lists `Apple` alone: no other fruit has a `p`. */
  lemma AppleShowsApple()
    ensures Filtered("Apple") == ["Apple"]
  {
    var items := SampleItems;
    assert forall i, j :: 1 <= i < |items| && 0 <= j < |items[i]| ==> items[i][j] != 'p' && items[i][j] != 'P';
    OnlyFirstMatches(items, "Apple", 1);
  }

  /** The empty query lists the five fruits in order. */
  lemma EmptyQueryShowsSamples()
    ensures Filtered("") == ["Apple", "Banana", "Cherry", "Date", "Elderberry"]
  {
    EmptyQueryShowsAll(SampleItems);
  }
}
