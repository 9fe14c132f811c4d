/** The two sizings of an image as the program runs them (src/index/fleet/snapshot.rs): the
    fast one over tallies and the slow one row by row, each against its definition. */
module ImageSizes {
  import opened Base
  import opened Ordered
  import opened Sums
  import opened Entries
  import opened Rows
  import opened Wire
  import opened Buckets
  import opened Image
  import opened ImageCodec
  import opened ImageRoundTrip
  import opened Streams

  // ----- buckets, shared by both -----

  ghost predicate CoversUpTo(buckets: map<Text, Bucket>, universe: seq<Text>, c: Caps, i: nat)
    requires i <= |universe|
  {
    && Ascending(universe[..i])
    && forall name :: name in universe[..i] ==> NameAllowed(name, c) && name in buckets && Ready(buckets[name])
  }

  lemma CoversNext(buckets: map<Text, Bucket>, universe: seq<Text>, c: Caps, i: nat)
    requires i < |universe| && CoversUpTo(buckets, universe, c, i)
    requires universe[i] in buckets && NameAllowed(universe[i], c)
    requires Ready(buckets[universe[i]]) && (i > 0 ==> Less(universe[i - 1], universe[i]))
    ensures CoversUpTo(buckets, universe, c, i + 1)
  {
    hide Less, Ready, Utf8;
    assert universe[..i + 1] == universe[..i] + [universe[i]];
    AscendingExtend(universe[..i], universe[i]);
  }

  lemma CoversAt(buckets: map<Text, Bucket>, universe: seq<Text>, c: Caps, i: nat)
    requires i < |universe| && Covers(buckets, universe, c)
    ensures universe[i] in buckets && NameAllowed(universe[i], c)
    ensures Ready(buckets[universe[i]]) && (i > 0 ==> Less(universe[i - 1], universe[i]))
  {
    hide Less, Ready, Utf8;
    assert universe[i] in universe;
  }

  lemma CoversAll(buckets: map<Text, Bucket>, universe: seq<Text>, c: Caps)
    requires CoversUpTo(buckets, universe, c, |universe|) && |universe| <= c.buckets && |buckets| == |universe|
    ensures Covers(buckets, universe, c)
  {
    hide Ascending, Ready, Utf8;
    assert universe[..|universe|] == universe;
  }

  /** The bucket of the next name, when it passes every condition of `Covers`. */
  method ImageBucket(buckets: map<Text, Bucket>, name: Text, previous: Option<Text>, c: Caps)
    returns (r: Result<Bucket, ImageError>)
    ensures r.Ok? <==>
        NameAllowed(name, c) && (previous.Some? ==> Less(previous.value, name)) && name in buckets
          && Ready(buckets[name])
    ensures r.Ok? ==> r.value == buckets[name]
  {
    if name == [] || |name| > c.names || (previous.Some? && !Less(previous.value, name)) {
      return Err(Corrupt);
    }
    if name !in buckets {
      return Err(Incomplete);
    }
    var b := buckets[name];
    if !b.synced || b.fences != map[] || b.rebuild.Some? {
      return Err(Incomplete);
    }
    return Ok(b);
  }

  // ----- from the tallies -----

  lemma {:induction false} TalliedGrows(buckets: map<Text, Bucket>, names: seq<Text>, i: nat)
    requires i <= |names| && forall name :: name in names ==> name in buckets
    ensures var (a, b) := (TalliedUpTo(buckets, names[..i]), TalliedUpTo(buckets, names));
      a.bytes <= b.bytes && a.charge <= b.charge && a.rows <= b.rows
    decreases |names|
  {
    hide NameSize, TalliedRows, Utf8;
    if i < |names| {
      var n := |names| - 1;
      TalliedGrows(buckets, names[..n], i);
      assert names[..n][..i] == names[..i];
    } else {
      assert names[..i] == names;
    }
  }

  lemma TalliedNext(buckets: map<Text, Bucket>, names: seq<Text>, i: nat)
    requires i < |names| && forall name :: name in names[..i + 1] ==> name in buckets
    ensures TalliedUpTo(buckets, names[..i + 1]) ==
        Plus(TalliedUpTo(buckets, names[..i]), Plus(NameSize(names[i]), TalliedRows(buckets[names[i]])))
  {
    hide NameSize, TalliedRows, Utf8;
    assert names[..i + 1][..i] == names[..i];
  }

  lemma SizableAt(buckets: map<Text, Bucket>, universe: seq<Text>, c: Caps, i: nat)
    requires i < |universe| && Sizable(buckets, universe, c)
    ensures Covers(buckets, universe, c)
    ensures forall name :: name in universe[..i + 1] ==> name in buckets
    ensures Within(Plus(HeaderSize(|universe|), TalliedUpTo(buckets, universe[..i + 1])), c)
  {
    hide TalliedUpTo, HeaderSize, Ascending, Ready, Utf8;
    TalliedGrows(buckets, universe, i + 1);
  }

  lemma SizableNeeds(buckets: map<Text, Bucket>, universe: seq<Text>, c: Caps)
    ensures Sizable(buckets, universe, c) ==>
              ValidCaps(c) && |universe| <= c.buckets && |buckets| == |universe|
                && HeaderSize(|universe|).charge <= c.decoded
  {
    hide TalliedUpTo, Ascending, Ready, Utf8;
  }

  lemma SizableAll(buckets: map<Text, Bucket>, universe: seq<Text>, c: Caps)
    requires ValidCaps(c) && |universe| <= c.buckets && |buckets| == |universe|
    requires CoversUpTo(buckets, universe, c, |universe|)
    ensures forall name :: name in universe ==> name in buckets
    ensures Within(Tallied(buckets, universe), c) <==> Sizable(buckets, universe, c)
  {
    hide TalliedUpTo, Ascending, Ready, Utf8;
    CoversAll(buckets, universe, c);
  }

  /** Charge one bucket's name and tallies. */
  method TallyBucket(name: Text, b: Bucket, c: Caps, budget: DecodeBudget) returns (r: Result<(), ImageError>)
    requires budget.Valid()
    modifies budget
    ensures r.Ok? <==> NameSize(name).charge + TalliedRows(b).charge <= old(budget.Left())
    ensures r.Ok? ==>
        budget.Valid() && budget.Left() == old(budget.Left()) - NameSize(name).charge - TalliedRows(b).charge
  {
    hide NameSize, Utf8;
    var _ :- budget.Take(NameSize(name).charge);
    var _ :- budget.Take(b.keys.image.decoded);
    r := budget.Take(b.gone.image.decoded);
  }

  /** Reads no row: succeeds exactly where `Sizable` holds. */
  method TalliedSize(buckets: map<Text, Bucket>, universe: seq<Text>, c: Caps) returns (r: Result<Size, ImageError>)
    ensures r.Ok? <==> Sizable(buckets, universe, c)
    ensures r.Ok? ==> r.value == Tallied(buckets, universe)
  {
    hide Sizable, ValidCaps, Covers, CoversUpTo, TalliedUpTo, Ready, Less, Utf8, HeaderSize, NameSize, NameAllowed,
         TalliedRows;
    SizableNeeds(buckets, universe, c);
    if !ValidCaps(c) {
      return Err(Capacity);
    }
    if |universe| > c.buckets || |buckets| != |universe| {
      return Err(Incomplete);
    }
    var header := HeaderSize(|universe|);
    var budget := new DecodeBudget(c.decoded);
    var _ :- budget.Take(header.charge);
    var size := Plus(header, Size(0, 0, 0));
    var previous: Option<Text> := None;
    HeaderRows(|universe|);
    CoversNothing(buckets, universe, c);
    for i := 0 to |universe|
      invariant budget.Valid() && CoversUpTo(buckets, universe, c, i)
      invariant previous == if i == 0 then None else Some(universe[i - 1])
      invariant forall name :: name in universe[..i] ==> name in buckets
      invariant size == Plus(header, TalliedUpTo(buckets, universe[..i]))
      invariant budget.Left() == c.decoded - size.charge && size.rows <= c.rows
    {
      if Sizable(buckets, universe, c) { SizableAt(buckets, universe, c, i); CoversAt(buckets, universe, c, i); }
      var b :- ImageBucket(buckets, universe[i], previous, c);
      previous := Some(universe[i]);
      CoversNext(buckets, universe, c, i);
      assert universe[..i + 1] == universe[..i] + [universe[i]];
      TalliedNext(buckets, universe, i);
      size := Plus(size, Plus(NameSize(universe[i]), TalliedRows(b)));
      NameRows(universe[i]);
      if size.rows > c.rows {
        return Err(Capacity);
      }
      var _ :- TallyBucket(universe[i], b, c, budget);
    }
    SizableAll(buckets, universe, c);
    assert universe[..|universe|] == universe;
    if size.bytes > c.bytes {
      return Err(Capacity);
    }
    return Ok(size);
  }

  lemma CoversNothing(buckets: map<Text, Bucket>, universe: seq<Text>, c: Caps)
    ensures CoversUpTo(buckets, universe, c, 0) && TalliedUpTo(buckets, universe[..0]) == Size(0, 0, 0)
    ensures MeasuredUpTo(buckets, universe[..0]) == Size(0, 0, 0)
  {}

  // ----- row by row -----

  lemma {:induction false} SeqSumGrows<K, V>(m: map<K, V>, keys: seq<K>, weight: (K, V) -> int, i: nat)
    requires i <= |keys| && (forall k :: k in keys ==> k in m) && forall k :: k in m ==> weight(k, m[k]) >= 0
    ensures 0 <= SeqSum(m, keys[..i], weight) <= SeqSum(m, keys, weight)
  {
    if keys != [] {
      SeqSumGrows(m, keys[1..], weight, if i > 0 then i - 1 else 0);
      if i > 0 {
        assert keys[..i][1..] == keys[1..][..i - 1];
      }
    }
  }

  lemma SeqSumNext<K, V>(m: map<K, V>, keys: seq<K>, weight: (K, V) -> int, i: nat)
    requires i < |keys| && forall k :: k in keys ==> k in m
    ensures SeqSum(m, keys[..i + 1], weight) == SeqSum(m, keys[..i], weight) + weight(keys[i], m[keys[i]])
  {
    assert keys[..i + 1] == keys[..i] + [keys[i]] && keys[i] in keys;
    SeqSumAppend(m, keys[..i], weight, keys[i]);
  }

  ghost predicate KeysMeasurable(b: Bucket, c: Caps) {
    forall k :: k in b.keys.rows ==> RowMeasurable(k, b.keys.rows[k], c)
  }

  ghost predicate GonesMeasurable(b: Bucket, c: Caps) {
    forall k :: k in b.gone.rows ==> NameAllowed(k, c) && !Contradicts(b, k)
  }

  lemma OrderSums(b: Bucket)
    ensures SeqSum(b.keys.rows, KeyOrder(b), KeyCharge) == Sum(b.keys.rows, KeyCharge)
    ensures SeqSum(b.keys.rows, KeyOrder(b), KeyBytes) == Sum(b.keys.rows, KeyBytes)
    ensures SeqSum(b.gone.rows, GoneOrder(b), TombCharge) == Sum(b.gone.rows, TombCharge)
    ensures SeqSum(b.gone.rows, GoneOrder(b), TombBytes) == Sum(b.gone.rows, TombBytes)
  {
    hide Ascending, Utf8;
    OrdersHold(b);
    AscendingDistinct(KeyOrder(b));
    AscendingDistinct(GoneOrder(b));
    SeqSumIsSum(b.keys.rows, KeyOrder(b), KeyCharge);
    SeqSumIsSum(b.keys.rows, KeyOrder(b), KeyBytes);
    SeqSumIsSum(b.gone.rows, GoneOrder(b), TombCharge);
    SeqSumIsSum(b.gone.rows, GoneOrder(b), TombBytes);
  }

  method MeasureRow(key: Text, e: Entry, c: Caps) returns (r: Result<(), ImageError>)
    ensures r.Ok? <==> RowMeasurable(key, e, c)
  {
    if key == [] || |key| > c.names {
      return Err(Capacity);
    }
    if e.storageClass == [] || |e.storageClass| > c.names {
      return Err(Capacity);
    }
    if e.etag.Some? && EtagTextLen(e.etag.value) > c.names {
      return Err(Capacity);
    }
    if e.size.Some? && e.size.value < 0 {
      return Err(Corrupt);
    }
    return Ok(());
  }

  method MeasureKeys(b: Bucket, c: Caps, budget: DecodeBudget) returns (r: Result<nat, ImageError>)
    requires budget.Valid()
    modifies budget
    ensures r.Ok? <==> KeysMeasurable(b, c) && Sum(b.keys.rows, KeyCharge) <= old(budget.Left())
    ensures r.Ok? ==>
        budget.Valid() && budget.Left() == old(budget.Left()) - Sum(b.keys.rows, KeyCharge)
          && r.value == Sum(b.keys.rows, KeyBytes)
  {
    hide RowMeasurable, Sum, SeqSum, Sorted, EntryCharge, EntryBytes, Utf8;
    OrderSums(b);
    var keys := KeyOrder(b);
    var encoded: nat := 0;
    SumOfNothing(b.keys.rows, KeyCharge);
    SumOfNothing(b.keys.rows, KeyBytes);
    assert keys[..0] == [];
    for i := 0 to |keys|
      invariant budget.Valid()
      invariant forall k :: k in keys[..i] ==> k in b.keys.rows && RowMeasurable(k, b.keys.rows[k], c)
      invariant encoded == SeqSum(b.keys.rows, keys[..i], KeyBytes)
      invariant budget.Left() == old(budget.Left()) - SeqSum(b.keys.rows, keys[..i], KeyCharge)
    {
      assert keys[..i + 1] == keys[..i] + [keys[i]] && keys[i] in keys;
      var (k, e) := (keys[i], b.keys.rows[keys[i]]);
      var _ :- MeasureRow(k, e, c);
      SeqSumNext(b.keys.rows, keys, KeyCharge, i);
      SeqSumNext(b.keys.rows, keys, KeyBytes, i);
      SeqSumGrows(b.keys.rows, keys, KeyCharge, i + 1);
      var _ :- budget.Take(EntryCharge(|k|, e));
      encoded := encoded + EntryBytes(|k|, e);
    }
    assert keys[..|keys|] == keys;
    return Ok(encoded);
  }

  lemma SumOfNothing<K, V>(m: map<K, V>, weight: (K, V) -> int)
    ensures SeqSum(m, [], weight) == 0
  {}

  method MeasureGones(b: Bucket, c: Caps, budget: DecodeBudget) returns (r: Result<nat, ImageError>)
    requires budget.Valid()
    modifies budget
    ensures r.Ok? <==> GonesMeasurable(b, c) && Sum(b.gone.rows, TombCharge) <= old(budget.Left())
    ensures r.Ok? ==>
        budget.Valid() && budget.Left() == old(budget.Left()) - Sum(b.gone.rows, TombCharge)
          && r.value == Sum(b.gone.rows, TombBytes)
  {
    hide Sum, SeqSum, Sorted, GoneCharge, GoneBytes, Utf8;
    OrderSums(b);
    var keys := GoneOrder(b);
    var encoded: nat := 0;
    SumOfNothing(b.gone.rows, TombCharge);
    SumOfNothing(b.gone.rows, TombBytes);
    assert keys[..0] == [];
    for i := 0 to |keys|
      invariant budget.Valid()
      invariant forall k :: k in keys[..i] ==> k in b.gone.rows && NameAllowed(k, c) && !Contradicts(b, k)
      invariant encoded == SeqSum(b.gone.rows, keys[..i], TombBytes)
      invariant budget.Left() == old(budget.Left()) - SeqSum(b.gone.rows, keys[..i], TombCharge)
    {
      assert keys[..i + 1] == keys[..i] + [keys[i]] && keys[i] in keys;
      var k := keys[i];
      if k == [] || |k| > c.names {
        return Err(Capacity);
      }
      if k in b.keys.rows && b.gone.rows[k] >= b.keys.rows[k].lastModified {
        assert Contradicts(b, k);
        return Err(Corrupt);
      }
      SeqSumNext(b.gone.rows, keys, TombCharge, i);
      SeqSumNext(b.gone.rows, keys, TombBytes, i);
      SeqSumGrows(b.gone.rows, keys, TombCharge, i + 1);
      var _ :- budget.Take(GoneCharge(|k|));
      encoded := encoded + GoneBytes(|k|);
    }
    assert keys[..|keys|] == keys;
    return Ok(encoded);
  }

  method MeasureBucket(name: Text, b: Bucket, c: Caps, budget: DecodeBudget) returns (r: Result<nat, ImageError>)
    requires budget.Valid()
    modifies budget
    ensures r.Ok? <==> RowsMeasurable(b, c) && NameSize(name).charge + RowsSize(b).charge <= old(budget.Left())
    ensures r.Ok? ==> budget.Valid() && budget.Left() == old(budget.Left()) - NameSize(name).charge - RowsSize(b).charge
    ensures r.Ok? ==> r.value == NameSize(name).bytes + RowsSize(b).bytes
  {
    hide Sum, NameSize, RowMeasurable, Contradicts, NameAllowed, Utf8;
    SumsAreSizes(b);
    var _ :- budget.Take(NameSize(name).charge);
    var keys :- MeasureKeys(b, c, budget);
    var gone :- MeasureGones(b, c, budget);
    return Ok(NameSize(name).bytes + keys + gone);
  }

  // ----- the whole image -----

  lemma {:induction false} MeasuredGrows(buckets: map<Text, Bucket>, names: seq<Text>, i: nat)
    requires i <= |names| && forall name :: name in names ==> name in buckets
    ensures var (a, b) := (MeasuredUpTo(buckets, names[..i]), MeasuredUpTo(buckets, names));
      a.bytes <= b.bytes && a.charge <= b.charge && a.rows <= b.rows
    decreases |names|
  {
    hide NameSize, RowsSize, Utf8;
    if i < |names| {
      var n := |names| - 1;
      MeasuredGrows(buckets, names[..n], i);
      assert names[..n][..i] == names[..i];
    } else {
      assert names[..i] == names;
    }
  }

  lemma MeasuredNext(buckets: map<Text, Bucket>, names: seq<Text>, i: nat)
    requires i < |names| && forall name :: name in names[..i + 1] ==> name in buckets
    ensures MeasuredUpTo(buckets, names[..i + 1]) ==
        Plus(MeasuredUpTo(buckets, names[..i]), Plus(NameSize(names[i]), RowsSize(buckets[names[i]])))
  {
    hide NameSize, RowsSize, Utf8;
    assert names[..i + 1][..i] == names[..i];
  }

  lemma MeasurableAt(buckets: map<Text, Bucket>, universe: seq<Text>, c: Caps, i: nat)
    requires i < |universe| && Measurable(buckets, universe, c)
    ensures Covers(buckets, universe, c) && universe[i] in buckets && RowsMeasurable(buckets[universe[i]], c)
    ensures forall name :: name in universe[..i + 1] ==> name in buckets
    ensures Within(Plus(HeaderSize(|universe|), MeasuredUpTo(buckets, universe[..i + 1])), c)
  {
    hide MeasuredUpTo, HeaderSize, Ascending, Ready, RowsMeasurable, Utf8;
    assert universe[i] in universe;
    MeasuredGrows(buckets, universe, i + 1);
  }

  lemma MeasurableNeeds(buckets: map<Text, Bucket>, universe: seq<Text>, c: Caps)
    ensures Measurable(buckets, universe, c) ==>
              ValidCaps(c) && |universe| <= c.buckets && |buckets| == |universe|
                && HeaderSize(|universe|).charge <= c.decoded
  {
    hide MeasuredUpTo, Ascending, Ready, RowsMeasurable, Utf8;
  }

  lemma MeasurableAll(buckets: map<Text, Bucket>, universe: seq<Text>, c: Caps)
    requires ValidCaps(c) && |universe| <= c.buckets && |buckets| == |universe|
    requires CoversUpTo(buckets, universe, c, |universe|)
    requires forall name :: name in universe ==> name in buckets && RowsMeasurable(buckets[name], c)
    ensures Within(Measured(buckets, universe), c) <==> Measurable(buckets, universe, c)
  {
    hide MeasuredUpTo, Ascending, Ready, RowsMeasurable, Utf8;
    CoversAll(buckets, universe, c);
  }

  /** The exact size row by row, off the lock, refusing anything malformed. */
  method MeasureImage(buckets: map<Text, Bucket>, universe: seq<Text>, c: Caps) returns (r: Result<Size, ImageError>)
    ensures r.Ok? <==> Measurable(buckets, universe, c)
    ensures r.Ok? ==> r.value == Measured(buckets, universe)
  {
    hide Measurable, ValidCaps, Covers, CoversUpTo, MeasuredUpTo, Ready, Less, Utf8, HeaderSize, NameSize, NameAllowed,
         RowsSize, RowsMeasurable;
    MeasurableNeeds(buckets, universe, c);
    if !ValidCaps(c) {
      return Err(Capacity);
    }
    if |universe| > c.buckets || |buckets| != |universe| {
      return Err(Incomplete);
    }
    var header := HeaderSize(|universe|);
    var budget := new DecodeBudget(c.decoded);
    var _ :- budget.Take(header.charge);
    var encoded: nat, rows: nat := header.bytes, 0;
    var previous: Option<Text> := None;
    HeaderRows(|universe|);
    CoversNothing(buckets, universe, c);
    for i := 0 to |universe|
      invariant budget.Valid() && CoversUpTo(buckets, universe, c, i)
      invariant previous == if i == 0 then None else Some(universe[i - 1])
      invariant forall name :: name in universe[..i] ==> name in buckets && RowsMeasurable(buckets[name], c)
      invariant Size(encoded, budget.used, rows) == Plus(header, MeasuredUpTo(buckets, universe[..i])) && rows <= c.rows
      invariant budget.limit == c.decoded
    {
      if Measurable(buckets, universe, c) { MeasurableAt(buckets, universe, c, i); CoversAt(buckets, universe, c, i); }
      var b :- ImageBucket(buckets, universe[i], previous, c);
      previous := Some(universe[i]);
      CoversNext(buckets, universe, c, i);
      assert universe[..i + 1] == universe[..i] + [universe[i]];
      MeasuredNext(buckets, universe, i);
      NameRows(universe[i]);
      RowsCounted(b);
      rows := rows + |b.keys.rows| + |b.gone.rows|;
      if rows > c.rows {
        return Err(Capacity);
      }
      var bytes :- MeasureBucket(universe[i], b, c, budget);
      encoded := encoded + bytes;
    }
    assert universe[..|universe|] == universe;
    MeasurableAll(buckets, universe, c);
    if encoded > c.bytes {
      return Err(Capacity);
    }
    return Ok(Size(encoded, budget.used, rows));
  }
}
