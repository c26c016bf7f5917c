/** backend/repositories/repository.py: query normalisation, the limit check of the
    recent-searches query and the freshness rule of the search cache. The database
    is replaced by the sequence of stored searches. */
module Repository {
  import opened Common
  import opened Seqs
  import opened Sorting
  import opened Text
  import opened Json
  import opened Models

  /** `normalize_query(query)`: a falsy or non-string query is rejected (a string is
      falsy exactly when empty); otherwise the query is stripped, lower-cased, and
      each whitespace run becomes one space. */
  function NormalizeQuery(query: Json): (r: Result<string>)
    ensures r.Err? <==> !(query.JStr? && query.s != "")
    ensures r.Err? ==> r.error == ValidationError
  {
    match query
    case JStr(q) =>
      if q == "" then Err(ValidationError) else Ok(CollapseRuns(Lower(Strip(q))))
    case _ => Err(ValidationError)
  }

  /** The normalised query is the words of the lower-cased query joined by single
      spaces (`" ".join(query.lower().split())`). */
  lemma NormalizeIsJoinedWords(q: string)
    requires q != ""
    ensures NormalizeQuery(JStr(q)) == Ok(Unwords(Words(Lower(q))))
  {
    var l := Lower(q);
    LowerStrip(q);
    var t := DropSpaces(l);
    CollapseIsUnwords(t);
    DropSpacesIdempotent(l);
  }

  /** A normalised query is lower-case, has no whitespace at either end, and its only
      whitespace is single spaces between words. */
  lemma NormalizedForm(q: string)
    requires q != ""
    ensures var r := NormalizeQuery(JStr(q)).value;
            NoUpper(r) && SingleSpaced(r)
  {
    NormalizeIsJoinedWords(q);
    UnwordsSingleSpaced(Words(Lower(q)));
    LowerNoUpper(Strip(q));
    CollapseNoUpper(Lower(Strip(q)));
  }

  /** Queries with the same words up to case normalise to the same string. */
  lemma SameWordsSameQuery(q1: string, q2: string)
    requires q1 != "" && q2 != ""
    requires Words(Lower(q1)) == Words(Lower(q2))
    ensures NormalizeQuery(JStr(q1)) == NormalizeQuery(JStr(q2))
  {
    NormalizeIsJoinedWords(q1);
    NormalizeIsJoinedWords(q2);
  }

  /** Normalising a normalised query changes nothing. */
  lemma NormalizeIdempotent(q: string)
    requires q != "" && NormalizeQuery(JStr(q)).value != ""
    ensures var r := NormalizeQuery(JStr(q)).value;
            NormalizeQuery(JStr(r)) == Ok(r)
  {
    var ws := Words(Lower(q));
    var r := NormalizeQuery(JStr(q)).value;
    NormalizeIsJoinedWords(q);
    NormalizedForm(q);
    LowerNoUpper(r);
    NormalizeIsJoinedWords(r);
    WordsUnwords(ws);
  }

  /** A query of whitespace only passes the check and normalises to the empty string. */
  lemma WhitespaceOnlyQuery(q: string)
    requires q != "" && AllSpace(q)
    ensures NormalizeQuery(JStr(q)) == Ok("")
  {
    AllSpaceDrops(q);
  }

  lemma {:induction false} AllSpaceDrops(q: string)
    requires AllSpace(q)
    ensures DropSpaces(q) == []
  {
    if q != [] {
      AllSpaceDrops(q[1..]);
    }
  }

  function CreatedAt(s: Search): real {
    s.createdAt
  }

  /** `get_recent_searches(limit)`: a limit below 1 is rejected; otherwise the searches
      by descending `created_at`, at most `limit` of them. */
  function RecentSearches(searches: seq<Search>, limit: int): (r: Result<seq<Search>>)
    ensures r.Err? <==> limit < 1
    ensures r.Err? ==> r.error == ValidationError
  {
    if limit < 1 then Err(ValidationError)
    else Ok(SliceTo(SortBy(searches, CreatedAt, true), limit))
  }

  /** The recent searches are the `limit` newest: newest first, taken from the stored
      searches, and no search left out is newer than one returned. */
  lemma RecentSearchesAreNewest(searches: seq<Search>, limit: int)
    requires limit >= 1
    ensures var r := RecentSearches(searches, limit).value;
            |r| == (if |searches| < limit then |searches| else limit)
            && multiset(r) <= multiset(searches)
            && (forall i, j :: 0 <= i < j < |r| ==> r[i].createdAt >= r[j].createdAt)
            && (forall x :: x in multiset(searches) - multiset(r) ==>
                  forall i :: 0 <= i < |r| ==> x.createdAt <= r[i].createdAt)
  {
    SortedPrefixIsBest(searches, CreatedAt, limit);
  }

  function ForQuery(normalizedQuery: string): Search -> bool {
    (s: Search) => s.normalizedQuery == normalizedQuery
  }

  /** The oldest `created_at` still fresh: `max_age_minutes` before `now` (seconds). */
  function Cutoff(now: real, maxAgeMinutes: int): real {
    now - maxAgeMinutes as real * 60.0
  }

  /** `get_cached_offers`: the newest search with this normalised query, unless there
      is none or it is older than the cutoff (None stands for the `[]` returned then). */
  function CachedSearch(searches: seq<Search>, normalizedQuery: string, maxAgeMinutes: int, now: real)
    : (r: Option<Search>)
    ensures r.Some? ==> r.value.normalizedQuery == normalizedQuery
                        && r.value.createdAt >= Cutoff(now, maxAgeMinutes)
  {
    var matching := Filter(searches, ForQuery(normalizedQuery));
    if matching == [] then None
    else
      var latest := SortBy(matching, CreatedAt, true)[0];
      assert latest in multiset(matching);
      if latest.createdAt < Cutoff(now, maxAgeMinutes) then None else Some(latest)
  }

  /** The cache hit is a stored search with the query, at least as new as every other
      search with that query; and there is no hit exactly when every search with the
      query is older than the cutoff. */
  lemma CachedSearchIsNewest(searches: seq<Search>, q: string, maxAgeMinutes: int, now: real)
    ensures var r := CachedSearch(searches, q, maxAgeMinutes, now);
            (r.Some? ==> r.value in searches
                         && forall s :: s in searches && s.normalizedQuery == q ==> s.createdAt <= r.value.createdAt)
            && (r.None? <==> forall s :: s in searches && s.normalizedQuery == q ==> s.createdAt < Cutoff(now, maxAgeMinutes))
  {
    var matching := Filter(searches, ForQuery(q));
    forall s | s in searches && s.normalizedQuery == q
      ensures s in matching
    {
      FilterMembership(searches, ForQuery(q), s);
    }
    if matching != [] {
      var sorted := SortBy(matching, CreatedAt, true);
      SortByIsSorted(matching, CreatedAt, true);
      var latest := sorted[0];
      assert latest in multiset(matching);
      FilterMembership(searches, ForQuery(q), latest);
      forall s | s in matching
        ensures s.createdAt <= latest.createdAt
      {
        assert s in multiset(sorted);
        var k :| 0 <= k < |sorted| && sorted[k] == s;
        if k > 0 {
          assert Before(CreatedAt(sorted[0]), CreatedAt(sorted[k]), true);
        }
      }
    }
  }

  /** A hit stays a hit with a larger maximum age or at an earlier time. */
  lemma CachedSearchMonotone(searches: seq<Search>, q: string, age1: int, age2: int, now1: real, now2: real)
    requires age1 <= age2 && now2 <= now1
    ensures CachedSearch(searches, q, age1, now1).Some? ==> CachedSearch(searches, q, age2, now2).Some?
  {
  }
}
