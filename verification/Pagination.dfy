/** Pages of a sorted family, and the cursors that lead from one to the next. */
module Pagination {
  import opened Wrappers
  import opened Ordering
  import opened CatalogTypes

  datatype Cursor = Cursor(catalog: string, family: Family, after: string)

  /** How cursors are written: JSON in unpadded URL-safe base64. */
  datatype Codec = Codec(encode: Cursor -> string, decode: string -> Option<Cursor>)

  ghost predicate Lawful(codec: Codec) {
    forall cursor :: codec.encode(cursor) != "" && codec.decode(codec.encode(cursor)) == Some(cursor)
  }

  /** The first position whose identity is not before the key. */
  function SearchStrings(identities: seq<string>, key: string): nat {
    if |identities| == 0 || !Less(identities[0], key) then 0 else 1 + SearchStrings(identities[1..], key)
  }

  datatype Span = Span(start: nat, end: nat, next: string)

  datatype Page = Invalid | Valid(span: Span)

  function Start(codec: Codec, id: string, family: Family, identities: seq<string>, requested: string): Option<nat> {
    if requested == "" then Some(0)
    else
      match codec.decode(requested)
      case None => None
      case Some(cursor) =>
        if cursor.catalog != id || cursor.family != family || cursor.after == "" then None
        else
          var found := SearchStrings(identities, cursor.after);
          if found >= |identities| || identities[found] != cursor.after then None else Some(found + 1)
  }

  function PageOf(codec: Codec, id: string, family: Family, identities: seq<string>, requested: string,
                  pageSize: int): Page {
    match Start(codec, id, family, identities, requested)
    case None => Invalid
    case Some(start) =>
      var size := if pageSize <= 0 then |identities| else pageSize;
      var end := if start + size < |identities| then start + size else |identities|;
      var next := if 0 < end < |identities| then codec.encode(Cursor(id, family, identities[end - 1])) else "";
      Valid(Span(start, end, next))
  }

  lemma {:induction false} SearchFinds(identities: seq<string>, k: nat)
    requires StrictlySorted(identities) && k < |identities|
    ensures SearchStrings(identities, identities[k]) == k
  {
    LessTrichotomy(identities[0], identities[k]);
    if k > 0 {
      assert Less(identities[0], identities[k]);
      assert StrictlySorted(identities[1..]) by {
        forall i, j | 0 <= i < j < |identities| - 1 ensures Less(identities[1..][i], identities[1..][j]) {
          assert Less(identities[i + 1], identities[j + 1]);
        }
      }
      SearchFinds(identities[1..], k - 1);
    }
  }

  lemma {:induction false} SearchBounded(identities: seq<string>, key: string)
    ensures SearchStrings(identities, key) <= |identities|
  {
    if |identities| > 0 && Less(identities[0], key) { SearchBounded(identities[1..], key); }
  }

  /** A cursor stands for a position of this catalog's family. */
  ghost predicate Names(codec: Codec, id: string, family: Family, identities: seq<string>, requested: string) {
    && codec.decode(requested).Some?
    && var cursor := codec.decode(requested).value;
       cursor.catalog == id && cursor.family == family && cursor.after != "" && cursor.after in identities
  }

  /** A cursor is rejected exactly when it was not made for this catalog and family, or
      names no identity in it; otherwise the page starts right after that identity. */
  lemma RejectedExactly(codec: Codec, id: string, family: Family, identities: seq<string>, requested: string,
                        pageSize: int)
    requires StrictlySorted(identities)
    ensures var page := PageOf(codec, id, family, identities, requested, pageSize);
      && (page.Valid? <==> requested == "" || Names(codec, id, family, identities, requested))
      && (page.Valid? && requested != "" ==>
        0 < page.span.start <= |identities| && identities[page.span.start - 1] == codec.decode(requested).value.after)
  {
    if requested != "" && Names(codec, id, family, identities, requested) {
      var k :| 0 <= k < |identities| && identities[k] == codec.decode(requested).value.after;
      SearchFinds(identities, k);
    }
  }

  /** A page is never empty unless nothing is left, keeps to the requested size, and
      its cursor leads to the position right behind it. */
  lemma PageAdvances(codec: Codec, id: string, family: Family, identities: seq<string>, requested: string,
                     pageSize: int, again: int)
    requires Lawful(codec) && StrictlySorted(identities) && "" !in identities
    requires PageOf(codec, id, family, identities, requested, pageSize).Valid?
    ensures var span := PageOf(codec, id, family, identities, requested, pageSize).span;
      && span.start <= span.end <= |identities|
      && (span.start < |identities| ==> span.start < span.end)
      && (if 0 < pageSize <= |identities| - span.start then span.end == span.start + pageSize
          else span.end == |identities|)
      && (span.next == "" <==> span.end == |identities|)
      && (span.next != "" ==>
            var next := PageOf(codec, id, family, identities, span.next, again);
            next.Valid? && next.span.start == span.end)
  {
    RejectedExactly(codec, id, family, identities, requested, pageSize);
    var span := PageOf(codec, id, family, identities, requested, pageSize).span;
    if span.next != "" {
      assert codec.decode(span.next) == Some(Cursor(id, family, identities[span.end - 1]));
      assert identities[span.end - 1] in identities;
      SearchFinds(identities, span.end - 1);
    }
  }

  /** Everything a client collects by following cursors, asking for `sizes(step)` items
      in each step. */
  function Walk(codec: Codec, id: string, family: Family, identities: seq<string>, requested: string, sizes: nat -> int,
                step: nat): seq<string>
    requires Lawful(codec) && StrictlySorted(identities) && "" !in identities
    decreases match Start(codec, id, family, identities, requested)
              case None => 0
              case Some(start) => if start <= |identities| then |identities| - start else 0
  {
    match PageOf(codec, id, family, identities, requested, sizes(step))
    case Invalid => []
    case Valid(span) =>
      PageAdvances(codec, id, family, identities, requested, sizes(step), 0);
      if span.next == "" then identities[span.start..span.end]
      else identities[span.start..span.end] + Walk(codec, id, family, identities, span.next, sizes, step + 1)
  }

  lemma {:induction false} WalkFrom(codec: Codec, id: string, family: Family, identities: seq<string>,
                                    requested: string, sizes: nat -> int, step: nat, start: nat)
    requires Lawful(codec) && StrictlySorted(identities) && "" !in identities
    requires start <= |identities| && Start(codec, id, family, identities, requested) == Some(start)
    ensures Walk(codec, id, family, identities, requested, sizes, step) == identities[start..]
    decreases |identities| - start
  {
    hide PageOf, Start, Lawful, StrictlySorted;
    PageStarts(codec, id, family, identities, requested, sizes(step), start);
    PageAdvances(codec, id, family, identities, requested, sizes(step), 0);
    var span := PageOf(codec, id, family, identities, requested, sizes(step)).span;
    if span.next != "" {
      StartsThere(codec, id, family, identities, span.next, span.end);
      WalkFrom(codec, id, family, identities, span.next, sizes, step + 1, span.end);
      assert identities[start..] == identities[start..span.end] + identities[span.end..];
    } else {
      assert identities[start..] == identities[start..span.end];
    }
  }

  lemma PageStarts(codec: Codec, id: string, family: Family, identities: seq<string>, requested: string, pageSize: int,
                   start: nat)
    requires Start(codec, id, family, identities, requested) == Some(start)
    ensures PageOf(codec, id, family, identities, requested, pageSize).Valid?
    ensures PageOf(codec, id, family, identities, requested, pageSize).span.start == start
  {
  }

  lemma StartsThere(codec: Codec, id: string, family: Family, identities: seq<string>, requested: string, start: nat)
    requires PageOf(codec, id, family, identities, requested, 0).Valid?
    requires PageOf(codec, id, family, identities, requested, 0).span.start == start
    ensures Start(codec, id, family, identities, requested) == Some(start)
  {
  }

  /** Main result. From the empty cursor, with any sequence of page sizes, following the
      cursors lists every identity exactly once and in order, and ends. */
  lemma WalkComplete(codec: Codec, id: string, family: Family, identities: seq<string>, sizes: nat -> int)
    requires Lawful(codec) && StrictlySorted(identities) && "" !in identities
    ensures Walk(codec, id, family, identities, "", sizes, 0) == identities
  {
    WalkFrom(codec, id, family, identities, "", sizes, 0, 0);
  }

  /** One page of a family, and the cursor to the next. */
  function PageFeatures(codec: Codec, id: string, family: Family, features: seq<Feature>, requested: string,
                        pageSize: int): Option<(seq<Feature>, string)> {
    match PageOf(codec, id, family, KeysOf(features), requested, pageSize)
    case Invalid => None
    case Valid(span) =>
      SpanOrdered(codec, id, family, KeysOf(features), requested, pageSize);
      Some((features[span.start..span.end], span.next))
  }

  /** A page of a family holds its features in the span, each in its place. */
  lemma FeaturesPaged(codec: Codec, id: string, family: Family, features: seq<Feature>, requested: string,
                      pageSize: int)
    ensures PageFeatures(codec, id, family, features, requested, pageSize).None? <==>
      PageOf(codec, id, family, KeysOf(features), requested, pageSize).Invalid?
    ensures PageOf(codec, id, family, KeysOf(features), requested, pageSize).Valid? ==>
      var (page, next) := PageFeatures(codec, id, family, features, requested, pageSize).value;
      var span := PageOf(codec, id, family, KeysOf(features), requested, pageSize).span;
      && KeysOf(page) == KeysOf(features)[span.start..span.end] && next == span.next
      && forall i :: 0 <= i < |page| ==> page[i] == features[span.start + i]
  {
    if PageOf(codec, id, family, KeysOf(features), requested, pageSize).Valid? {
      SpanOrdered(codec, id, family, KeysOf(features), requested, pageSize);
      var page := PageFeatures(codec, id, family, features, requested, pageSize).value.0;
      var span := PageOf(codec, id, family, KeysOf(features), requested, pageSize).span;
      assert KeysOf(page) == KeysOf(features)[span.start..span.end];
    }
  }

  lemma SpanOrdered(codec: Codec, id: string, family: Family, identities: seq<string>, requested: string, pageSize: int)
    requires PageOf(codec, id, family, identities, requested, pageSize).Valid?
    ensures var span := PageOf(codec, id, family, identities, requested, pageSize).span;
      span.start <= span.end <= |identities|
  {
  }
}
