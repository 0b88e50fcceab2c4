/** Tool search: a page of the ranking, with the tool of exactly that name first. */
module ToolSearch {
  import opened Wrappers
  import opened Ordering

  datatype Document = Document(name: string, component: string, revision: string, tool: nat)

  datatype Match = Match(id: string, score: real)

  /** The search engine: all matches of a text, best first. */
  datatype Engine = Engine(isSpace: char -> bool, ranking: string -> seq<Match>)

  datatype Index = Index(documents: map<string, Document>, ready: bool)

  datatype Results = Results(tools: seq<Document>, hasMore: bool)

  datatype Error = InvalidQuery | NotReady

  // ---- The engine ----

  /** Highest score first, then by name. */
  predicate Ranked(a: Match, b: Match) {
    a.score > b.score || (a.score == b.score && Less(a.id, b.id))
  }

  /** A ranking is totally ordered and holds documents, each at most once. */
  ghost predicate Lawful(index: Index, ranking: seq<Match>) {
    && (forall i, j :: 0 <= i < j < |ranking| ==> Ranked(ranking[i], ranking[j]) && ranking[i].id != ranking[j].id)
    && (forall i :: 0 <= i < |ranking| ==> ranking[i].id in index.documents)
  }

  /** The engine returns the best `k` matches. */
  function Top(ranking: seq<Match>, k: nat): seq<Match> {
    if k < |ranking| then ranking[..k] else ranking
  }

  predicate Blank(engine: Engine, text: string) {
    forall r :: r in text ==> engine.isSpace(r)
  }

  // ---- Search ----

  /** The comparison that puts the exact name first. */
  predicate Before(text: string, a: Match, b: Match) {
    if a.id == text then true
    else if b.id == text then false
    else if a.score != b.score then a.score > b.score
    else Less(a.id, b.id)
  }

  function InsertHit(text: string, hit: Match, sorted: seq<Match>): seq<Match> {
    if |sorted| == 0 || Before(text, hit, sorted[0]) then [hit] + sorted
    else [sorted[0]] + InsertHit(text, hit, sorted[1..])
  }

  /** slices.SortStableFunc with that comparison. */
  function SortHits(text: string, hits: seq<Match>): seq<Match> {
    if |hits| == 0 then [] else InsertHit(text, hits[|hits| - 1], SortHits(text, hits[..|hits| - 1]))
  }

  function Min(a: int, b: int): int {
    if a < b then a else b
  }

  /** What is fetched: the best matches, and the exact name if it is not among them. */
  function Fetched(index: Index, ranking: seq<Match>, text: string, fetch: nat): seq<Match> {
    var hits := Top(ranking, fetch);
    if text in index.documents && !Listed(hits, text) then hits + [Match(text, 0.0)] else hits
  }

  predicate Listed(hits: seq<Match>, text: string) {
    exists i :: 0 <= i < |hits| && hits[i].id == text
  }

  // ---- What it should return ----

  function Without(hits: seq<Match>, text: string): seq<Match> {
    if |hits| == 0 then []
    else
      var rest, last := Without(hits[..|hits| - 1], text), hits[|hits| - 1];
      if last.id == text then rest else rest + [last]
  }

  function Ids(hits: seq<Match>): seq<string> {
    seq(|hits|, i requires 0 <= i < |hits| => hits[i].id)
  }

  /** The full list: the tool of exactly that name first, if there is one, and then
      the ranking without it. */
  function FullList(index: Index, ranking: seq<Match>, text: string): seq<string> {
    (if text in index.documents then [text] else []) + Ids(Without(ranking, text))
  }

  function Slice(list: seq<string>, offset: nat, limit: nat): seq<string> {
    list[Min(offset, |list|)..Min(offset + limit, |list|)]
  }

  function Definitions(index: Index, ids: seq<string>): seq<Document> {
    seq(|ids|, i requires 0 <= i < |ids| =>
      if ids[i] in index.documents then index.documents[ids[i]] else Document("", "", "", 0))
  }

  /** One page of the full list, and whether more follows. */
  function Page(index: Index, ranking: seq<Match>, text: string, offset: nat, limit: nat): Results {
    var list := FullList(index, ranking, text);
    Results(Definitions(index, Slice(list, offset, limit)), |list| > offset + limit)
  }

  // ---- The search method ----

  method Search(index: Index, engine: Engine, text: string, limit: int, offset: int)
      returns (result: Result<Results, Error>)
    requires Lawful(index, engine.ranking(text))
    ensures result ==
      if Blank(engine, text) || limit < 1 || offset < 0 then Err(InvalidQuery)
      else if !index.ready then Err(NotReady)
      else Ok(Page(index, engine.ranking(text), text, offset, limit))
    ensures result == Err(InvalidQuery) <==> limit < 1 || offset < 0 || forall r :: r in text ==> engine.isSpace(r)
  {
    if Blank(engine, text) || limit < 1 || offset < 0 {
      return Err(InvalidQuery);
    }
    if !index.ready {
      return Err(NotReady);
    }
    ghost var ranking := engine.ranking(text);
    var total := |index.documents|;
    FullListFits(index, ranking, text);
    if offset >= total {
      EmptyPage(index, ranking, text, offset, limit);
      return Ok(Results([], false));
    }
    // Fetch the prefix so that promotion happens before the page is taken.
    var end := offset + Min(limit, total - offset);
    var fetch := end;
    if fetch < total {
      fetch := fetch + 1;
    }
    var hits := Fetch(index, engine, text, fetch);
    FetchSuffices(index, ranking, text, fetch, end);
    hits := SortHits(text, hits);
    var from, to := Min(offset, |hits|), Min(end, |hits|);
    FetchedPage(index, ranking, text, Ids(hits), offset, limit, end);
    var tools := [];
    for i := from to to
      invariant tools == Definitions(index, Ids(hits)[from..i])
    {
      assert Ids(hits)[i] == hits[i].id && hits[i].id in index.documents;
      tools := tools + [index.documents[hits[i].id]];
      assert Ids(hits)[from..i + 1] == Ids(hits)[from..i] + [hits[i].id];
    }
    return Ok(Results(tools, |hits| > end));
  }

  method Fetch(index: Index, engine: Engine, text: string, fetch: nat) returns (hits: seq<Match>)
    ensures hits == Fetched(index, engine.ranking(text), text, fetch)
  {
    hits := Top(engine.ranking(text), fetch);
    if text in index.documents {
      var found := false;
      for i := 0 to |hits|
        invariant found <==> Listed(hits[..i], text)
      {
        ListedAppend(hits, i, text);
        found := found || hits[i].id == text;
      }
      assert hits[..|hits|] == hits;
      if !found {
        hits := hits + [Match(text, 0.0)];
      }
    }
  }

  lemma EmptyPage(index: Index, ranking: seq<Match>, text: string, offset: nat, limit: nat)
    requires |FullList(index, ranking, text)| <= offset
    ensures Page(index, ranking, text, offset, limit) == Results([], false)
  {
    hide FullList;
    assert Slice(FullList(index, ranking, text), offset, limit) == [];
  }

  /** The sorted hits hold the whole page. */
  lemma FetchedPage(index: Index, ranking: seq<Match>, text: string, got: seq<string>, offset: nat, limit: nat,
                    end: nat)
    requires var list := FullList(index, ranking, text);
      && got <= list && (|got| > end <==> |list| > end) && (|list| <= end ==> got == list)
      && |list| <= |index.documents| && offset < |index.documents|
      && end == offset + Min(limit, |index.documents| - offset)
    requires forall i :: 0 <= i < |FullList(index, ranking, text)| ==>
      FullList(index, ranking, text)[i] in index.documents
    ensures Min(offset, |got|) <= Min(end, |got|)
    ensures Page(index, ranking, text, offset, limit)
         == Results(Definitions(index, got[Min(offset, |got|)..Min(end, |got|)]), |got| > end)
    ensures forall i :: 0 <= i < |got| ==> got[i] in index.documents
  {
    hide FullList, Definitions;
    var list := FullList(index, ranking, text);
    assert got == list[..|got|];
    assert Slice(list, offset, limit) == got[Min(offset, |got|)..Min(end, |got|)];
  }

  lemma ListedAppend(hits: seq<Match>, i: nat, text: string)
    requires i < |hits|
    ensures Listed(hits[..i + 1], text) <==> Listed(hits[..i], text) || hits[i].id == text
  {
    assert hits[..i + 1][i] == hits[i];
    if Listed(hits[..i], text) {
      var k :| 0 <= k < |hits[..i]| && hits[..i][k].id == text;
      assert hits[..i + 1][k].id == text;
    }
  }

  // ---- Sorting promotes the exact name ----

  /** In rank order apart from the exact name, which may be anywhere. */
  ghost predicate NearlySorted(text: string, hits: seq<Match>) {
    forall i, j :: 0 <= i < j < |hits| ==>
      hits[i].id != hits[j].id && (hits[i].id != text && hits[j].id != text ==> Ranked(hits[i], hits[j]))
  }

  lemma {:induction false} InsertLast(text: string, hit: Match, sorted: seq<Match>)
    requires forall i :: 0 <= i < |sorted| ==> !Before(text, hit, sorted[i])
    ensures InsertHit(text, hit, sorted) == sorted + [hit]
  {
    if |sorted| > 0 {
      InsertLast(text, hit, sorted[1..]);
      assert sorted == [sorted[0]] + sorted[1..];
    }
  }

  lemma {:induction false} WithoutMembers(hits: seq<Match>, text: string)
    ensures forall hit :: hit in Without(hits, text) <==> hit in hits && hit.id != text
    ensures !Listed(hits, text) ==> Without(hits, text) == hits
  {
    if |hits| > 0 {
      var init := hits[..|hits| - 1];
      WithoutMembers(init, text);
      assert hits == init + [hits[|hits| - 1]];
      if Listed(init, text) {
        var k :| 0 <= k < |init| && init[k].id == text;
        assert hits[k].id == text;
      }
    }
  }

  lemma RankedNotBefore(text: string, a: Match, b: Match)
    requires b.id != text && (a.id == text || Ranked(a, b))
    ensures !Before(text, b, a)
  {
    if a.id != text { LessTrichotomy(a.id, b.id); }
  }

  /** The hits of exactly that name. */
  function Exact(hits: seq<Match>, text: string): seq<Match> {
    if |hits| == 0 then []
    else
      var rest, last := Exact(hits[..|hits| - 1], text), hits[|hits| - 1];
      if last.id == text then rest + [last] else rest
  }

  lemma {:induction false} ExactMembers(hits: seq<Match>, text: string)
    ensures forall hit :: hit in Exact(hits, text) <==> hit in hits && hit.id == text
    ensures !Listed(hits, text) ==> Exact(hits, text) == []
  {
    if |hits| > 0 {
      var init := hits[..|hits| - 1];
      ExactMembers(init, text);
      assert hits == init + [hits[|hits| - 1]];
      if Listed(init, text) {
        var k :| 0 <= k < |init| && init[k].id == text;
        assert hits[k].id == text;
      }
    }
  }

  lemma {:induction false} SortMoves(text: string, hits: seq<Match>)
    requires NearlySorted(text, hits)
    ensures SortHits(text, hits) == Exact(hits, text) + Without(hits, text)
  {
    hide Before, Ranked;
    if |hits| > 0 {
      var init, last := hits[..|hits| - 1], hits[|hits| - 1];
      SortMoves(text, init);
      if last.id == text {
        NotListedBefore(text, hits);
        ExactMembers(init, text);
        InsertFirst(text, last, Without(init, text));
      } else {
        NoneBefore(text, hits);
        InsertLast(text, last, Exact(init, text) + Without(init, text));
      }
    }
  }

  lemma InsertFirst(text: string, hit: Match, sorted: seq<Match>)
    requires hit.id == text
    ensures InsertHit(text, hit, [] + sorted) == [hit] + sorted
  {
    assert [] + sorted == sorted;
  }

  lemma NoneBefore(text: string, hits: seq<Match>)
    requires NearlySorted(text, hits) && |hits| > 0 && hits[|hits| - 1].id != text
    ensures var sorted := Exact(hits[..|hits| - 1], text) + Without(hits[..|hits| - 1], text);
      forall i :: 0 <= i < |sorted| ==> !Before(text, hits[|hits| - 1], sorted[i])
  {
    var init, last := hits[..|hits| - 1], hits[|hits| - 1];
    var sorted := Exact(init, text) + Without(init, text);
    WithoutMembers(init, text);
    ExactMembers(init, text);
    forall i | 0 <= i < |sorted| ensures !Before(text, last, sorted[i]) {
      assert sorted[i] in sorted && sorted[i] in init;
      var k :| 0 <= k < |init| && init[k] == sorted[i];
      assert hits[k] == init[k];
      RankedNotBefore(text, sorted[i], last);
    }
  }

  lemma SortPromotes(text: string, hits: seq<Match>)
    requires NearlySorted(text, hits)
    ensures Ids(SortHits(text, hits)) == (if Listed(hits, text) then [text] else []) + Ids(Without(hits, text))
    ensures |SortHits(text, hits)| == |hits|
  {
    SortMoves(text, hits);
    OneExact(text, hits);
    WithoutLength(hits, text);
    assert Ids(Exact(hits, text) + Without(hits, text)) == Ids(Exact(hits, text)) + Ids(Without(hits, text));
  }

  lemma {:induction false} OneExact(text: string, hits: seq<Match>)
    requires forall i, j :: 0 <= i < j < |hits| ==> hits[i].id != hits[j].id
    ensures Ids(Exact(hits, text)) == if Listed(hits, text) then [text] else []
  {
    if |hits| > 0 {
      var init := hits[..|hits| - 1];
      OneExact(text, init);
      ListedAppend(hits, |hits| - 1, text);
      assert hits[..|hits|] == hits;
      ExactMembers(init, text);
      if hits[|hits| - 1].id == text {
        assert !Listed(init, text);
      }
    }
  }

  lemma NotListedBefore(text: string, hits: seq<Match>)
    requires NearlySorted(text, hits) && |hits| > 0 && hits[|hits| - 1].id == text
    ensures !Listed(hits[..|hits| - 1], text)
  {
  }

  // ---- Fetching one more than the page suffices ----

  lemma {:induction false} WithoutPrefix(hits: seq<Match>, k: nat, text: string)
    requires k <= |hits|
    ensures Without(hits[..k], text) <= Without(hits, text)
    decreases |hits|
  {
    if k < |hits| {
      assert hits[..|hits| - 1][..k] == hits[..k];
      WithoutPrefix(hits[..|hits| - 1], k, text);
    } else {
      assert hits[..k] == hits;
    }
  }

  lemma {:induction false} WithoutLength(hits: seq<Match>, text: string)
    requires forall i, j :: 0 <= i < j < |hits| ==> hits[i].id != hits[j].id
    ensures |Without(hits, text)| == |hits| - if Listed(hits, text) then 1 else 0
  {
    if |hits| > 0 {
      var init := hits[..|hits| - 1];
      WithoutLength(init, text);
      ListedAppend(hits, |hits| - 1, text);
      assert hits[..|hits|] == hits;
      if hits[|hits| - 1].id == text {
        assert !Listed(init, text);
      }
    }
  }

  lemma FetchSuffices(index: Index, ranking: seq<Match>, text: string, fetch: nat, end: nat)
    requires Lawful(index, ranking) && end <= |index.documents|
    requires fetch == if end < |index.documents| then end + 1 else end
    ensures var got, list := Ids(SortHits(text, Fetched(index, ranking, text, fetch))), FullList(index, ranking, text);
      && |SortHits(text, Fetched(index, ranking, text, fetch))| == |Fetched(index, ranking, text, fetch)|
      && got <= list
      && (|got| > end <==> |list| > end)
      && (|list| <= end ==> got == list)
      && (forall i :: 0 <= i < |list| ==> list[i] in index.documents)
  {
    var hits := Fetched(index, ranking, text, fetch);
    FetchedNearlySorted(index, ranking, text, fetch);
    SortPromotes(text, hits);
    FetchedPrefix(index, ranking, text, fetch);
    FetchedCounts(index, ranking, text, fetch, end);
  }

  lemma FetchedNearlySorted(index: Index, ranking: seq<Match>, text: string, fetch: nat)
    requires Lawful(index, ranking)
    ensures NearlySorted(text, Fetched(index, ranking, text, fetch))
    ensures Listed(Fetched(index, ranking, text, fetch), text) <==> text in index.documents
  {
    var top, hits := Top(ranking, fetch), Fetched(index, ranking, text, fetch);
    assert |hits| > |top| ==> hits[|top|].id == text;
    if Listed(top, text) {
      var k :| 0 <= k < |top| && top[k].id == text;
      assert hits[k].id == text && ranking[k].id in index.documents;
    }
  }

  /** What is fetched and sorted is a prefix of the full list. */
  lemma FetchedPrefix(index: Index, ranking: seq<Match>, text: string, fetch: nat)
    requires Lawful(index, ranking)
    ensures Ids(Without(Fetched(index, ranking, text, fetch), text)) <= Ids(Without(ranking, text))
  {
    var top, hits := Top(ranking, fetch), Fetched(index, ranking, text, fetch);
    WithoutPrefix(ranking, if fetch < |ranking| then fetch else |ranking|, text);
    assert top == ranking[..if fetch < |ranking| then fetch else |ranking|];
    if |hits| > |top| { assert hits[..|hits| - 1] == top; }
    assert Without(hits, text) == Without(top, text);
  }

  lemma FetchedCounts(index: Index, ranking: seq<Match>, text: string, fetch: nat, end: nat)
    requires Lawful(index, ranking) && end <= |index.documents|
    requires fetch == if end < |index.documents| then end + 1 else end
    ensures var hits, list := Fetched(index, ranking, text, fetch), FullList(index, ranking, text);
      && (|hits| > end <==> |list| > end)
      && (|list| <= end ==> |hits| == |list|)
      && |hits| == |if Listed(hits, text) then [text] else []| + |Without(hits, text)|
      && (forall i :: 0 <= i < |list| ==> list[i] in index.documents)
  {
    var hits, top := Fetched(index, ranking, text, fetch), Top(ranking, fetch);
    FetchedNearlySorted(index, ranking, text, fetch);
    WithoutLength(ranking, text);
    WithoutLength(hits, text);
    FullListFits(index, ranking, text);
    if Listed(top, text) {
      var k :| 0 <= k < |top| && top[k].id == text;
      assert ranking[k].id == text;
    }
  }

  // ---- The full list has no more entries than there are documents ----

  lemma {:induction false} DistinctFits(ids: seq<string>, keys: set<string>)
    requires forall i, j :: 0 <= i < j < |ids| ==> ids[i] != ids[j]
    requires forall i :: 0 <= i < |ids| ==> ids[i] in keys
    ensures |ids| <= |keys|
    decreases |ids|
  {
    if |ids| > 0 {
      var n := |ids| - 1;
      DistinctFits(ids[..n], keys - {ids[n]});
      assert keys == (keys - {ids[n]}) + {ids[n]};
    }
  }

  lemma FullListFits(index: Index, ranking: seq<Match>, text: string)
    requires Lawful(index, ranking)
    ensures var list := FullList(index, ranking, text);
      && |list| <= |index.documents|
      && (forall i :: 0 <= i < |list| ==> list[i] in index.documents)
      && (forall i, j :: 0 <= i < j < |list| ==> list[i] != list[j])
  {
    var list := FullList(index, ranking, text);
    WithoutMembers(ranking, text);
    WithoutDistinct(ranking, text);
    var rest := Without(ranking, text);
    forall i | 0 <= i < |rest| ensures rest[i].id in index.documents && rest[i].id != text {
      assert rest[i] in rest;
    }
    DistinctFits(list, index.documents.Keys);
  }

  lemma {:induction false} WithoutDistinct(hits: seq<Match>, text: string)
    requires forall i, j :: 0 <= i < j < |hits| ==> hits[i].id != hits[j].id
    ensures forall i, j :: 0 <= i < j < |Without(hits, text)| ==> Without(hits, text)[i].id != Without(hits, text)[j].id
  {
    if |hits| > 0 {
      var init, last := hits[..|hits| - 1], hits[|hits| - 1];
      WithoutDistinct(init, text);
      WithoutMembers(init, text);
      var rest := Without(init, text);
      forall i | 0 <= i < |rest| ensures rest[i].id != last.id {
        assert rest[i] in init;
      }
    }
  }

  // ---- Walking the pages ----

  /** All results, page after page, asking for `limits(step)` more in each step. */
  function Walk(index: Index, ranking: seq<Match>, text: string, limits: nat -> nat, offset: nat,
                step: nat): seq<Document>
    requires forall k :: limits(k) >= 1
    decreases |FullList(index, ranking, text)| - offset
  {
    var page := Page(index, ranking, text, offset, limits(step));
    if !page.hasMore then page.tools
    else page.tools + Walk(index, ranking, text, limits, offset + limits(step), step + 1)
  }

  lemma {:induction false} WalkFrom(index: Index, ranking: seq<Match>, text: string, limits: nat -> nat, offset: nat,
                                    step: nat)
    requires forall k :: limits(k) >= 1
    requires offset <= |FullList(index, ranking, text)|
    ensures Walk(index, ranking, text, limits, offset, step) ==
      Definitions(index, FullList(index, ranking, text)[offset..])
    decreases |FullList(index, ranking, text)| - offset
  {
    var list := FullList(index, ranking, text);
    var limit := limits(step);
    if |list| > offset + limit {
      WalkFrom(index, ranking, text, limits, offset + limit, step + 1);
      assert list[offset..] == list[offset..offset + limit] + list[offset + limit..];
    } else {
      assert Slice(list, offset, limit) == list[offset..];
    }
  }

  /** Main result. Paging until nothing more is announced returns the exactly named tool
      first and then every other match in rank order: each once, none left out. */
  lemma WalkComplete(index: Index, ranking: seq<Match>, text: string, limits: nat -> nat)
    requires Lawful(index, ranking) && forall k :: limits(k) >= 1
    ensures Walk(index, ranking, text, limits, 0, 0) == Definitions(index, FullList(index, ranking, text))
    ensures forall id :: id in FullList(index, ranking, text) <==>
      (id == text && text in index.documents) || Listed(ranking, id)
    ensures forall i, j :: 0 <= i < j < |FullList(index, ranking, text)| ==>
      FullList(index, ranking, text)[i] != FullList(index, ranking, text)[j]
  {
    WalkFrom(index, ranking, text, limits, 0, 0);
    FullListFits(index, ranking, text);
    var list := FullList(index, ranking, text);
    assert list[0..] == list;
    forall id ensures id in list <==> (id == text && text in index.documents) || Listed(ranking, id) {
      FullListMembers(index, ranking, text, id);
    }
  }

  lemma FullListMembers(index: Index, ranking: seq<Match>, text: string, id: string)
    requires Lawful(index, ranking)
    ensures id in FullList(index, ranking, text) <==> (id == text && text in index.documents) || Listed(ranking, id)
  {
    WithoutMembers(ranking, text);
    var rest := Without(ranking, text);
    if id in Ids(rest) {
      var i :| 0 <= i < |rest| && Ids(rest)[i] == id;
      assert rest[i] in rest;
      var k :| 0 <= k < |ranking| && ranking[k] == rest[i];
    }
    if Listed(ranking, id) && id != text {
      var k :| 0 <= k < |ranking| && ranking[k].id == id;
      assert ranking[k] in rest;
      var i :| 0 <= i < |rest| && rest[i] == ranking[k];
      assert Ids(rest)[i] == id;
    }
  }
}
