/** The peer image of a whole index: its size from the rows' tallies and row by row, its
    bytes, and the private index a follower decodes (src/index/fleet.rs,
    src/index/fleet/snapshot.rs). */
module Image {
  import opened Base
  import opened Ordered
  import opened Sums
  import opened Entries
  import opened Rows
  import opened Wire
  import opened Buckets

  datatype Caps = Caps(bytes: nat, decoded: nat, buckets: nat, rows: nat, names: nat)

  predicate ValidCaps(c: Caps) {
    && 0 < c.bytes <= 268_435_456
    && 0 < c.decoded <= 1_073_741_824
    && 0 < c.buckets <= 4_096
    && 0 < c.rows <= 2_000_000
    && 0 < c.names <= 16_384
  }

  /** Encoded bytes, decode charge and row count of an image or of a part of one. */
  datatype Size = Size(bytes: nat, charge: nat, rows: nat)

  function Plus(a: Size, b: Size): Size { Size(a.bytes + b.bytes, a.charge + b.charge, a.rows + b.rows) }

  predicate Within(s: Size, c: Caps) { s.bytes <= c.bytes && s.charge <= c.decoded && s.rows <= c.rows }

  /** What an image takes and owes before its first bucket. */
  function HeaderSize(count: nat): Size {
    Size(1 + 4, INDEX_BYTES + (4 * count + HASH_MIN_SLOTS) * (BUCKET_SLOT_BYTES + 16), 0)
  }

  /** A bucket's name and its two row counts. */
  function NameSize(name: Text): Size { Size(4 + |name| + 4 + 4, |name| + STRING_BYTES, 0) }

  // ----- which indexes have an image -----

  predicate Ready(b: Bucket) { b.synced && b.fences == map[] && b.rebuild == None }

  predicate NameAllowed(name: seq<byte>, c: Caps) { 0 < |name| <= c.names }

  /** The universe names exactly the indexed buckets, each complete and certain. */
  predicate Covers(buckets: map<Text, Bucket>, universe: seq<Text>, c: Caps) {
    && |universe| <= c.buckets
    && |buckets| == |universe|
    && Ascending(universe)
    && forall name :: name in universe ==> NameAllowed(name, c) && name in buckets && Ready(buckets[name])
  }

  predicate RowMeasurable(key: Text, e: Entry, c: Caps) {
    && NameAllowed(key, c)
    && NameAllowed(e.storageClass, c)
    && (e.etag.Some? ==> EtagTextLen(e.etag.value) <= c.names)
    && (e.size.Some? ==> e.size.value >= 0)
  }

  /** A tombstone contradicts a row it is not older than. */
  predicate Contradicts(b: Bucket, key: Text)
    requires key in b.gone.rows
  {
    key in b.keys.rows && b.gone.rows[key] >= b.keys.rows[key].lastModified
  }

  predicate RowsMeasurable(b: Bucket, c: Caps) {
    && (forall key :: key in b.keys.rows ==> RowMeasurable(key, b.keys.rows[key], c))
    && (forall key :: key in b.gone.rows ==> NameAllowed(key, c) && !Contradicts(b, key))
  }

  ghost function KeyBytes(k: Text, e: Entry): int { EntryBytes(|k|, e) }
  ghost function KeyCharge(k: Text, e: Entry): int { EntryCharge(|k|, e) }
  ghost function TombBytes(k: Text, at: Time): int { GoneBytes(|k|) }
  ghost function TombCharge(k: Text, at: Time): int { GoneCharge(|k|) }

  lemma SumsAreSizes(b: Bucket)
    ensures Sum(b.keys.rows, KeyBytes) >= 0 && Sum(b.keys.rows, KeyCharge) >= 0
    ensures Sum(b.gone.rows, TombBytes) >= 0 && Sum(b.gone.rows, TombCharge) >= 0
  {
    SumNonNegative(b.keys.rows, KeyBytes);
    SumNonNegative(b.keys.rows, KeyCharge);
    SumNonNegative(b.gone.rows, TombBytes);
    SumNonNegative(b.gone.rows, TombCharge);
  }

  /** What the rows of a bucket measure, and what its tallies say they do. */
  ghost function RowsSize(b: Bucket): Size {
    SumsAreSizes(b);
    Size(Sum(b.keys.rows, KeyBytes) + Sum(b.gone.rows, TombBytes),
         Sum(b.keys.rows, KeyCharge) + Sum(b.gone.rows, TombCharge),
         |b.keys.rows| + |b.gone.rows|)
  }

  function TalliedRows(b: Bucket): Size {
    Size(b.keys.image.encoded + b.gone.image.encoded,
         b.keys.image.decoded + b.gone.image.decoded,
         |b.keys.rows| + |b.gone.rows|)
  }

  lemma RowsCounted(b: Bucket)
    ensures RowsSize(b).rows == |b.keys.rows| + |b.gone.rows|
  {
    hide Sum;
    SumsAreSizes(b);
  }

  lemma HeaderRows(n: nat)
    ensures HeaderSize(n).rows == 0
  {}

  lemma NameRows(name: Text)
    ensures NameSize(name).rows == 0
  {}

  ghost function MeasuredUpTo(buckets: map<Text, Bucket>, names: seq<Text>): Size
    requires forall name :: name in names ==> name in buckets
  {
    if names == [] then Size(0, 0, 0) else
      var last := names[|names| - 1];
      Plus(MeasuredUpTo(buckets, names[..|names| - 1]), Plus(NameSize(last), RowsSize(buckets[last])))
  }

  function TalliedUpTo(buckets: map<Text, Bucket>, names: seq<Text>): Size
    requires forall name :: name in names ==> name in buckets
  {
    if names == [] then Size(0, 0, 0) else
      var last := names[|names| - 1];
      Plus(TalliedUpTo(buckets, names[..|names| - 1]), Plus(NameSize(last), TalliedRows(buckets[last])))
  }

  ghost function Measured(buckets: map<Text, Bucket>, universe: seq<Text>): Size
    requires forall name :: name in universe ==> name in buckets
  {
    Plus(HeaderSize(|universe|), MeasuredUpTo(buckets, universe))
  }

  function Tallied(buckets: map<Text, Bucket>, universe: seq<Text>): Size
    requires forall name :: name in universe ==> name in buckets
  {
    Plus(HeaderSize(|universe|), TalliedUpTo(buckets, universe))
  }

  /** What the row-by-row measurement accepts. */
  ghost predicate Measurable(buckets: map<Text, Bucket>, universe: seq<Text>, c: Caps) {
    && ValidCaps(c) && Covers(buckets, universe, c)
    && (forall name :: name in universe ==> RowsMeasurable(buckets[name], c))
    && Within(Measured(buckets, universe), c)
  }

  /** What the sizing at C accepts, from the tallies alone. */
  predicate Sizable(buckets: map<Text, Bucket>, universe: seq<Text>, c: Caps) {
    ValidCaps(c) && Covers(buckets, universe, c) && Within(Tallied(buckets, universe), c)
  }

  ghost predicate AllTallied(buckets: map<Text, Bucket>) {
    forall name :: name in buckets ==> KeysTallied(buckets[name].keys) && GoneTallied(buckets[name].gone)
  }

  // ----- the fast size agrees with the slow one -----

  lemma {:induction false} TermAtMostSum<K, V>(m: map<K, V>, weight: (K, V) -> int, k: K)
    requires k in m && forall j :: j in m ==> weight(j, m[j]) >= 0
    ensures weight(k, m[k]) <= Sum(m, weight)
  {
    SumRemove(m, weight, k);
    SumNonNegative(m - {k}, weight);
  }

  lemma {:induction false} SumSame<K, V>(m: map<K, V>, f: (K, V) -> int, g: (K, V) -> int)
    requires forall k :: k in m ==> f(k, m[k]) == g(k, m[k])
    ensures Sum(m, f) == Sum(m, g)
    decreases |m|
  {
    if m != map[] { SumSame(m - {Pick(m)}, f, g); }
  }

  /** A sum below the word size is its own wrapped sum of clipped terms. */
  lemma KeySumsUnwrapped(b: Bucket)
    requires KeysTallied(b.keys)
    requires Sum(b.keys.rows, KeyBytes) < U64_LIMIT && Sum(b.keys.rows, KeyCharge) < U64_LIMIT
    ensures b.keys.image.encoded == Sum(b.keys.rows, KeyBytes)
    ensures b.keys.image.decoded == Sum(b.keys.rows, KeyCharge)
  {
    hide EntryBytes, EntryCharge;
    var rows := b.keys.rows;
    SumsAreSizes(b);
    forall k | k in rows
      ensures KeyEncoded(k, rows[k]) == KeyBytes(k, rows[k]) && KeyDecoded(k, rows[k]) == KeyCharge(k, rows[k])
    {
      TermAtMostSum(rows, KeyBytes, k);
      TermAtMostSum(rows, KeyCharge, k);
    }
    SumSame(rows, KeyEncoded, KeyBytes);
    SumSame(rows, KeyDecoded, KeyCharge);
  }

  lemma GoneSumsUnwrapped(b: Bucket)
    requires GoneTallied(b.gone)
    requires Sum(b.gone.rows, TombBytes) < U64_LIMIT && Sum(b.gone.rows, TombCharge) < U64_LIMIT
    ensures b.gone.image.encoded == Sum(b.gone.rows, TombBytes)
    ensures b.gone.image.decoded == Sum(b.gone.rows, TombCharge)
  {
    hide GoneBytes, GoneCharge;
    var rows := b.gone.rows;
    SumsAreSizes(b);
    forall k | k in rows
      ensures GoneEncoded(k, rows[k]) == TombBytes(k, rows[k]) && GoneDecoded(k, rows[k]) == TombCharge(k, rows[k])
    {
      TermAtMostSum(rows, TombBytes, k);
      TermAtMostSum(rows, TombCharge, k);
    }
    SumSame(rows, GoneEncoded, TombBytes);
    SumSame(rows, GoneDecoded, TombCharge);
  }

  lemma TalliedRowsExact(b: Bucket)
    requires KeysTallied(b.keys) && GoneTallied(b.gone)
    requires RowsSize(b).bytes < U64_LIMIT && RowsSize(b).charge < U64_LIMIT
    ensures TalliedRows(b) == RowsSize(b)
  {
    SumsAreSizes(b);
    KeySumsUnwrapped(b);
    GoneSumsUnwrapped(b);
  }

  lemma {:induction false} TalliedIsMeasured(buckets: map<Text, Bucket>, names: seq<Text>)
    requires AllTallied(buckets)
    requires forall name :: name in names ==> name in buckets
    requires MeasuredUpTo(buckets, names).bytes < U64_LIMIT && MeasuredUpTo(buckets, names).charge < U64_LIMIT
    ensures TalliedUpTo(buckets, names) == MeasuredUpTo(buckets, names)
  {
    hide NameSize, RowsSize, TalliedRows, KeysTallied, GoneTallied;
    if names != [] {
      TalliedIsMeasured(buckets, names[..|names| - 1]);
      TalliedRowsExact(buckets[names[|names| - 1]]);
    }
  }

  /** When the row-by-row measurement accepts an index whose tallies are its rows', the
      sizing at C accepts it too, with the same size. */
  lemma SizeAgreement(buckets: map<Text, Bucket>, universe: seq<Text>, c: Caps)
    requires AllTallied(buckets) && Measurable(buckets, universe, c)
    ensures Sizable(buckets, universe, c) && Tallied(buckets, universe) == Measured(buckets, universe)
  {
    hide AllTallied, MeasuredUpTo, TalliedUpTo, HeaderSize, Ready, Ascending;
    TalliedIsMeasured(buckets, universe);
  }
}
