/** One LIST page as the program builds it from the index's rows, and the refinement of the
    unpaged roll-up by a client following its cursors. */
module ListPages {
  import opened Base
  import opened Ordered
  import opened Entries
  import opened Buckets
  import opened Listing

  /** Keys with the request's prefix beyond the cursor, in order. */
  function Matching(rows: map<Text, Entry>, q: Request, after: Option<Text>): seq<Text> {
    Sorted(set k | k in rows && q.prefix <= k && (after.None? || Less(after.value, k)))
  }

  /** Object rows, common prefixes, and where the next page resumes. */
  datatype Page = Page(contents: seq<Listed>, common: seq<Bytes>, truncated: bool, next: Option<Text>)

  function ClampMax(maxKeys: Option<int>): nat {
    if maxKeys.None? || maxKeys.value > 1000 then 1000 else if maxKeys.value < 0 then 0 else maxKeys.value
  }

  function Contents(rows: map<Text, Entry>, keys: seq<Text>): seq<Listed>
    requires forall k :: k in keys ==> k in rows
  {
    if keys == [] then [] else
      var k := keys[|keys| - 1];
      assert k in keys;
      Contents(rows, keys[..|keys| - 1]) + [Listed(k, rows[k])]
  }

  lemma MatchingIs(rows: map<Text, Entry>, q: Request, after: Option<Text>)
    ensures Ascending(Matching(rows, q, after))
    ensures forall k :: k in Matching(rows, q, after) <==>
        k in rows && q.prefix <= k && (after.None? || Less(after.value, k))
  {
    hide Less, Utf8;
    SortedAscends(set k | k in rows && q.prefix <= k && (after.None? || Less(after.value, k)));
  }

  lemma RolledKeysHeld(rows: map<Text, Entry>, q: Request, after: Option<Text>, n: nat)
    requires n <= |Matching(rows, q, after)|
    ensures forall k :: k in RollUp(q, Matching(rows, q, after)[..n]).keys ==> k in rows && GroupOf(q, k).None?
  {
    hide Less, Utf8, GroupOf, Sorted;
    MatchingIs(rows, q, after);
    var ks := Matching(rows, q, after);
    KeysAre(q, ks[..n]);
  }

  ghost predicate Sized(rows: map<Text, Entry>, keys: seq<Text>) {
    forall k :: k in keys ==> k in rows && rows[k].size.Some?
  }

  /** The page the request asks for, or none if one of its rows has no known size. */
  ghost function PageOf(rows: map<Text, Entry>, q: Request, after: Option<Text>, max: nat): Option<Page> {
    if max == 0 then Some(Page([], [], false, None)) else
    var ks := Matching(rows, q, after);
    var n := PageEnd(q, ks, max, 0);
    var r := RollUp(q, ks[..n]);
    if !Sized(rows, r.keys) then None
    else Some(Page(Contents(rows, r.keys), r.groups, n < |ks|, if 0 < n < |ks| then Some(ks[n - 1]) else None))
  }

  // ----- the loop -----

  datatype Lower = Unbounded | Included(at: Text) | Excluded(at: Text)

  predicate InRange(lower: Lower, k: Text) {
    match lower case Unbounded => true case Included(at) => AtMost(at, k) case Excluded(at) => Less(at, k)
  }

  /** Where the walk of the ordered rows begins: never before the prefix. */
  function LowerBound(q: Request, after: Option<Text>): Lower {
    if after.Some? && !Less(after.value, q.prefix) then Excluded(after.value)
    else if q.prefix != [] then Included(q.prefix)
    else Unbounded
  }

  function RangeFrom(rows: map<Text, Entry>, lower: Lower): seq<Text> { Sorted(set k | k in rows && InRange(lower, k)) }

  lemma {:induction false} PrefixAtMost(p: Bytes, k: Bytes)
    requires p <= k
    ensures AtMost(p, k)
  {
    if p != [] && k != [] { PrefixAtMost(p[1..], k[1..]); }
  }

  lemma RangeHolds(q: Request, after: Option<Text>, k: Text)
    ensures InRange(LowerBound(q, after), k) ==> AtMost(q.prefix, k)
    ensures q.prefix <= k ==> (InRange(LowerBound(q, after), k) <==> after.None? || Less(after.value, k))
  {
    if q.prefix <= k { PrefixAtMost(q.prefix, k); }
    if after.Some? {
      if Less(after.value, q.prefix) {
        if Less(q.prefix, k) { LessTransitive(after.value, q.prefix, k); }
      } else {
        LessTotal(after.value, q.prefix);
        if Less(q.prefix, after.value) && Less(after.value, k) { LessTransitive(q.prefix, after.value, k); }
      }
    }
  }

  /** Rows before one with the prefix have it too, from the bound on. */
  lemma BlockFirst(p: Bytes, a: Bytes, b: Bytes)
    requires AtMost(p, a) && Less(a, b) && p <= b
    ensures p <= a
  {
    if a != p { Between(p, p, a, b); }
  }

  lemma {:induction false} BlockIsPrefix(p: Bytes, order: seq<Text>, ks: seq<Text>)
    requires Ascending(order) && Ascending(ks) && (forall k :: k in ks <==> k in order && p <= k)
    requires forall k :: k in order ==> AtMost(p, k)
    ensures |ks| <= |order| && order[..|ks|] == ks
    ensures forall i :: |ks| <= i < |order| ==> !(p <= order[i]) && Less(p, order[i])
  {
    hide Less, Utf8;
    if order == [] {
      AscendingUnique(order, ks);
    } else {
      var n := |order| - 1;
      assert order[n] in order && order == order[..n] + [order[n]];
      if p <= order[n] {
        forall k | k in order ensures p <= k {
          var i :| 0 <= i < |order| && order[i] == k;
          if i < n { BlockFirst(p, order[i], order[n]); }
        }
        AscendingUnique(order, ks);
      } else {
        forall k ensures k in ks <==> k in order[..n] && p <= k {}
        BlockIsPrefix(p, order[..n], ks);
      }
    }
  }

  lemma RangeIsBlock(rows: map<Text, Entry>, q: Request, after: Option<Text>)
    ensures var order := RangeFrom(rows, LowerBound(q, after));
      var ks := Matching(rows, q, after);
      && |ks| <= |order| && order[..|ks|] == ks
      && (forall i :: |ks| <= i < |order| ==> !(q.prefix <= order[i]) && Less(q.prefix, order[i]))
      && (forall k :: k in order ==> k in rows)
  {
    hide Less, Utf8, LowerBound, InRange;
    var lower := LowerBound(q, after);
    var order := RangeFrom(rows, lower);
    MatchingIs(rows, q, after);
    SortedAscends(set k | k in rows && InRange(lower, k));
    forall k: Text ensures InRange(lower, k) ==> AtMost(q.prefix, k) { RangeHolds(q, after, k); }
    forall k: Text ensures k in Matching(rows, q, after) <==> k in order && q.prefix <= k { RangeHolds(q, after, k); }
    BlockIsPrefix(q.prefix, order, Matching(rows, q, after));
  }

  lemma EndMoves(q: Request, ks: seq<Text>, max: nat, i: nat)
    requires i < |ks|
    ensures !(Count(RollUp(q, ks[..i])) >= max && Adds(q, RollUp(q, ks[..i]), ks[i])) ==>
        PageEnd(q, ks, max, i) == PageEnd(q, ks, max, i + 1)
    ensures Count(RollUp(q, ks[..i])) >= max && Adds(q, RollUp(q, ks[..i]), ks[i]) ==> PageEnd(q, ks, max, i) == i
    ensures RollUp(q, ks[..i + 1]) == Rolled(q, RollUp(q, ks[..i]), ks[i])
  {
    hide GroupOf, Utf8;
    assert ks[..i + 1][..i] == ks[..i];
  }

  /** A row past `i` the page must emit without knowing its size spoils the whole page. */
  lemma UnknownSpoils(rows: map<Text, Entry>, q: Request, after: Option<Text>, max: nat, i: nat)
    requires max > 0 && i < |Matching(rows, q, after)|
    requires var ks := Matching(rows, q, after);
      && PageEnd(q, ks, max, 0) == PageEnd(q, ks, max, i + 1)
      && GroupOf(q, ks[i]).None? && (ks[i] in rows ==> rows[ks[i]].size.None?)
    ensures PageOf(rows, q, after, max).None?
  {
    hide GroupOf, Utf8, Sorted, Less;
    MatchingIs(rows, q, after);
    var ks := Matching(rows, q, after);
    var n := PageEnd(q, ks, max, 0);
    KeysAre(q, ks[..n]);
    assert ks[..n][i] == ks[i] && ks[i] in ks[..n];
    assert ks[i] in RollUp(q, ks[..n]).keys;
  }

  lemma RowListed(rows: map<Text, Entry>, keys: seq<Text>, key: Text)
    requires Sized(rows, keys) && key in rows && rows[key].size.Some?
    ensures Sized(rows, keys + [key]) && Contents(rows, keys + [key]) == Contents(rows, keys) + [Listed(key, rows[key])]
  {
    assert (keys + [key])[..|keys|] == keys;
  }

  method ListObjects(rows: map<Text, Entry>, q: Request, startAfter: Option<Text>, resume: Option<Text>,
                     maxKeys: Option<int>)
    returns (page: Option<Page>)
    ensures page == PageOf(rows, q, if resume.Some? then resume else startAfter, ClampMax(maxKeys))
  {
    hide GroupOf, Utf8, Sorted, Less, Matching, RollUp, PageEnd, LowerBound, Contents, Ascending;
    var max := ClampMax(maxKeys);
    if max == 0 {
      return Some(Page([], [], false, None));
    }
    var after := if resume.Some? then resume else startAfter;
    var order := RangeFrom(rows, LowerBound(q, after));
    ghost var ks := Matching(rows, q, after);
    RangeIsBlock(rows, q, after);
    MatchingIs(rows, q, after);
    RollNothing(rows, q, ks);
    var contents: seq<Listed>, common: seq<Bytes> := [], [];
    ghost var keys: seq<Text> := [];
    var truncated := false;
    var last: Option<Text> := None;
    ghost var end := PageEnd(q, ks, max, 0);
    var i := 0;
    while i < |order|
      invariant 0 <= i <= |ks|
      invariant end == PageEnd(q, ks, max, i)
      invariant RollUp(q, ks[..i]) == Roll(keys, common) && Sized(rows, keys) && contents == Contents(rows, keys)
      invariant last == if i > 0 then Some(ks[i - 1]) else None
      invariant !truncated && |contents| == |keys|
      decreases |order| - i
    {
      var key := order[i];
      assert i < |ks| ==> key == order[..|ks|][i] && ks[i] in ks;
      if !(q.prefix <= key) {
        // The walk began at the prefix, so a row without it lies past its block.
        assert i == |ks|;
        break;
      }
      assert i < |ks|;
      EndMoves(q, ks, max, i);
      assert key == order[..|ks|][i] == ks[i] && key in order;
      var count := |contents| + |common|;
      var group := GroupOf(q, key);
      if group.Some? {
        if group.value !in common {
          if count >= max {
            truncated := true;
            break;
          }
          common := common + [group.value];
        }
        last := Some(key);
        i := i + 1;
        continue;
      }
      if count >= max {
        truncated := true;
        break;
      }
      if rows[key].size.None? {
        UnknownSpoils(rows, q, after, max, i);
        return None;
      }
      RowListed(rows, keys, key);
      keys := keys + [key];
      contents := contents + [Listed(key, rows[key])];
      last := Some(key);
      i := i + 1;
    }
    if !truncated { EndAll(q, ks, max); }
    return Some(Page(contents, common, truncated, if truncated then last else None));
  }

  lemma RollNothing(rows: map<Text, Entry>, q: Request, ks: seq<Text>)
    ensures RollUp(q, ks[..0]) == Roll([], []) && Contents(rows, []) == []
  {}

  lemma EndAll(q: Request, ks: seq<Text>, max: nat)
    ensures PageEnd(q, ks, max, |ks|) == |ks|
  {}

  // ----- following the cursors -----

  /** What lies past a page is what the next one matches. */
  lemma Remainder(rows: map<Text, Entry>, q: Request, after: Option<Text>, n: nat)
    requires 0 < n <= |Matching(rows, q, after)|
    ensures Matching(rows, q, Some(Matching(rows, q, after)[n - 1])) == Matching(rows, q, after)[n..]
  {
    hide Less, Utf8, Sorted;
    MatchingIs(rows, q, after);
    var ks := Matching(rows, q, after);
    var cursor := ks[n - 1];
    MatchingIs(rows, q, Some(cursor));
    var rest := Matching(rows, q, Some(cursor));
    assert cursor in ks;
    forall k ensures k in rest <==> k in ks[n..] {
      if k in rest {
        if after.Some? { LessTransitive(after.value, cursor, k); }
        assert k in ks;
        var i :| 0 <= i < |ks| && ks[i] == k;
        if i < n { NotBelow(ks, i, n - 1); }
        assert ks[n..][i - n] == k;
      }
      if k in ks[n..] {
        var i :| 0 <= i < |ks[n..]| && ks[n..][i] == k;
        assert k == ks[n + i] && Less(cursor, k) && k in ks;
      }
    }
    AscendingUnique(rest, ks[n..]);
  }

  lemma NotBelow(ks: seq<Text>, i: nat, j: nat)
    requires Ascending(ks) && i <= j < |ks|
    ensures !Less(ks[j], ks[i])
  {
    if i < j { LessAsymmetric(ks[i], ks[j]); } else { LessIrreflexive(ks[i]); }
  }

  /** Every row a listing would emit has a known size. */
  ghost predicate AllSized(rows: map<Text, Entry>, q: Request) {
    forall k :: k in rows && q.prefix <= k && GroupOf(q, k).None? ==> rows[k].size.Some?
  }

  lemma PageServed(rows: map<Text, Entry>, q: Request, after: Option<Text>, max: nat)
    requires AllSized(rows, q)
    ensures PageOf(rows, q, after, max).Some?
  {
    hide Less, Utf8, Sorted, GroupOf;
    var ks := Matching(rows, q, after);
    var n := PageEnd(q, ks, max, 0);
    MatchingIs(rows, q, after);
    KeysAre(q, ks[..n]);
    RolledKeysHeld(rows, q, after, n);
  }

  /** The pages a client receives by passing each page's cursor back. */
  ghost function Walk(rows: map<Text, Entry>, q: Request, after: Option<Text>, max: nat): seq<Page>
    requires max > 0 && AllSized(rows, q)
    decreases |Matching(rows, q, after)|
  {
    PageServed(rows, q, after, max);
    var page := PageOf(rows, q, after, max).value;
    if !page.truncated then [page] else
      WalkShrinks(rows, q, after, max);
      [page] + Walk(rows, q, page.next, max)
  }

  lemma WalkShrinks(rows: map<Text, Entry>, q: Request, after: Option<Text>, max: nat)
    requires max > 0 && PageOf(rows, q, after, max).Some? && PageOf(rows, q, after, max).value.truncated
    ensures var ks := Matching(rows, q, after);
      var n := PageEnd(q, ks, max, 0);
      var page := PageOf(rows, q, after, max).value;
      0 < n < |ks| && page.next == Some(ks[n - 1]) && Matching(rows, q, page.next) == ks[n..]
  {
    hide Less, Utf8, Sorted, GroupOf;
    var ks := Matching(rows, q, after);
    var n := PageEnd(q, ks, max, 0);
    assert ks[..0] == [] && n > 0;
    Remainder(rows, q, after, n);
  }

  ghost function AllContents(pages: seq<Page>): seq<Listed> {
    if pages == [] then [] else pages[0].contents + AllContents(pages[1..])
  }

  ghost function AllCommon(pages: seq<Page>): seq<Bytes> {
    if pages == [] then [] else pages[0].common + AllCommon(pages[1..])
  }

  lemma {:induction false} ContentsJoin(rows: map<Text, Entry>, a: seq<Text>, b: seq<Text>)
    requires forall k :: k in a + b ==> k in rows
    ensures Contents(rows, a + b) == Contents(rows, a) + Contents(rows, b)
  {
    if b == [] {
      assert a + b == a;
    } else {
      var n := |b| - 1;
      assert (a + b)[..|a + b| - 1] == a + b[..n];
      ContentsJoin(rows, a, b[..n]);
    }
  }

  lemma {:induction false} ContentsCount(rows: map<Text, Entry>, a: seq<Text>)
    requires forall k :: k in a ==> k in rows
    ensures |Contents(rows, a)| == |a|
  {
    if a != [] { ContentsCount(rows, a[..|a| - 1]); }
  }

  /** A page short of the end is exactly full, and says so exactly when items remain. */
  lemma PageIsFull(rows: map<Text, Entry>, q: Request, after: Option<Text>, max: nat)
    requires max > 0 && PageOf(rows, q, after, max).Some?
    ensures var page := PageOf(rows, q, after, max).value;
      var whole := RollUp(q, Matching(rows, q, after));
      && |page.contents| + |page.common| <= max
      && (page.truncated ==> |page.contents| + |page.common| == max)
      && (page.truncated <==> Count(whole) > |page.contents| + |page.common|)
      && page.truncated == page.next.Some?
  {
    hide Less, Utf8, Sorted, GroupOf, Adds;
    var ks := Matching(rows, q, after);
    var n := PageEnd(q, ks, max, 0);
    MatchingIs(rows, q, after);
    assert ks[..0] == [];
    PageFills(q, ks, max, 0);
    PageSplits(q, ks, max);
    RolledKeysHeld(rows, q, after, n);
    ContentsCount(rows, RollUp(q, ks[..n]).keys);
    if n < |ks| { FirstCounts(q, ks[n..]); } else { assert ks[..n] == ks; }
  }

  lemma {:induction false} FirstCounts(q: Request, ks: seq<Text>)
    requires ks != []
    ensures Count(RollUp(q, ks)) > 0
  {
    hide GroupOf, Utf8;
    if |ks| > 1 { FirstCounts(q, ks[..|ks| - 1]); } else { assert ks[..0] == []; }
  }

  /** The pages together are the roll-up, and every one but the last is cut short at exactly
      `max` items. */
  ghost predicate Covers(pages: seq<Page>, rows: map<Text, Entry>, whole: Roll, max: nat) {
    && (forall k :: k in whole.keys ==> k in rows)
    && AllContents(pages) == Contents(rows, whole.keys) && AllCommon(pages) == whole.groups
    && pages != [] && !pages[|pages| - 1].truncated
    && (forall i :: 0 <= i < |pages| - 1 ==> pages[i].truncated && |pages[i].contents| + |pages[i].common| == max)
  }

  /** The whole walk: every page but the last exactly full, and all of them together the
      unpaged roll-up, each key and each common prefix once and in order. */
  lemma {:induction false} WalkIsRollUp(rows: map<Text, Entry>, q: Request, after: Option<Text>, max: nat)
    requires max > 0 && AllSized(rows, q)
    ensures Covers(Walk(rows, q, after, max), rows, RollUp(q, Matching(rows, q, after)), max)
    decreases |Matching(rows, q, after)|
  {
    hide Less, Utf8, Sorted, GroupOf, Adds, Contents, RollUp, PageEnd, Matching, PageOf, AllSized, Ascending, Count,
         Covers;
    PageServed(rows, q, after, max);
    var ks := Matching(rows, q, after);
    var n := PageEnd(q, ks, max, 0);
    var page := PageOf(rows, q, after, max).value;
    MatchingIs(rows, q, after);
    PageIsFull(rows, q, after, max);
    PageSplits(q, ks, max);
    RolledKeysHeld(rows, q, after, n);
    PageHolds(rows, q, after, max);
    if page.truncated {
      WalkShrinks(rows, q, after, max);
      WalkIsRollUp(rows, q, page.next, max);
      var rest := Walk(rows, q, page.next, max);
      assert Walk(rows, q, after, max) == [page] + rest;
      hide Walk;
      PagesJoin(rows, page, rest, RollUp(q, ks[..n]), RollUp(q, ks[n..]), max);
    } else {
      assert ks[..n] == ks;
      LastPage(rows, page, RollUp(q, ks), max);
    }
  }

  lemma LastPage(rows: map<Text, Entry>, page: Page, whole: Roll, max: nat)
    requires !page.truncated && forall k :: k in whole.keys ==> k in rows
    requires page.contents == Contents(rows, whole.keys) && page.common == whole.groups
    ensures Covers([page], rows, whole, max)
  {
    hide AllContents, AllCommon, Contents, Utf8;
    assert [page] == [page] + [];
    PagesFrom(page, []);
  }

  lemma PagesFrom(page: Page, rest: seq<Page>)
    ensures AllContents([page] + rest) == page.contents + AllContents(rest)
    ensures AllCommon([page] + rest) == page.common + AllCommon(rest)
    ensures AllContents([]) == [] && AllCommon([]) == []
  {
    assert ([page] + rest)[1..] == rest;
  }

  lemma PagesJoin(rows: map<Text, Entry>, page: Page, rest: seq<Page>, front: Roll, back: Roll, max: nat)
    requires page.truncated && |page.contents| + |page.common| == max && forall k :: k in front.keys ==> k in rows
    requires page.contents == Contents(rows, front.keys) && page.common == front.groups
    requires Covers(rest, rows, back, max)
    ensures Covers([page] + rest, rows, Join(front, back), max)
  {
    hide AllContents, AllCommon, Contents, Utf8;
    PagesFrom(page, rest);
    ContentsJoin(rows, front.keys, back.keys);
  }

  lemma PageHolds(rows: map<Text, Entry>, q: Request, after: Option<Text>, max: nat)
    requires max > 0 && PageOf(rows, q, after, max).Some?
    ensures var ks := Matching(rows, q, after);
      var n := PageEnd(q, ks, max, 0);
      var page := PageOf(rows, q, after, max).value;
      && Sized(rows, RollUp(q, ks[..n]).keys) && page.contents == Contents(rows, RollUp(q, ks[..n]).keys)
      && page.common == RollUp(q, ks[..n]).groups && page.truncated == (n < |ks|)
  {
    hide Less, Utf8, Sorted, GroupOf, Adds, RollUp, PageEnd, Matching;
  }
}
