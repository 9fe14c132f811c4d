/** A follower's private stage (src/index/fleet/stage.rs) and its guarded swap into the
    live index (src/index/fleet/install.rs). */
module Install {
  import opened Base
  import opened Ordered
  import opened Entries
  import opened Rows
  import opened Wire
  import opened Buckets
  import opened Image
  import opened ImageCodec
  import opened Index
  import Delta

  // ----- the private stage -----

  datatype Stage = Stage(buckets: map<Text, Bucket>, stats: Stats, rows: nat)

  function BucketRows(b: Bucket): nat { |b.keys.rows| + |b.gone.rows| }

  function RowTotal(buckets: map<Text, Bucket>, names: seq<Text>): nat
    requires forall name :: name in names ==> name in buckets
  {
    if names == [] then 0 else
      RowTotal(buckets, names[..|names| - 1]) + BucketRows(buckets[names[|names| - 1]])
  }

  function StageOf(d: Decoded): Stage {
    Stage(d.buckets, d.stats, RowTotal(d.buckets, Sorted(d.buckets.Keys)))
  }

  function StagedCell(g: Stage, d: Delta.Delta): Cell
    requires !d.Noop? && d.bucket in g.buckets
  {
    var c := Cell(g.buckets[d.bucket], g.stats);
    if d.Put? then PutCell(c, d.key, d.entry, true) else DelCell(c, d.key, d.at, false)
  }

  predicate MayGrow(g: Stage, d: Delta.Delta) {
    match d
    case Put(bucket, key, _) => bucket in g.buckets && key !in g.buckets[bucket].keys.rows
    case Delete(_, _, _) => true
    case Noop => false
  }

  /** Apply one donor effect, refusing a bucket the image does not hold and growth past the
      row ceiling. */
  function StageStep(g: Stage, d: Delta.Delta, caps: Caps): Result<Stage, ImageError> {
    if d.Noop? then Ok(g) else
    if d.bucket !in g.buckets then Err(Incomplete) else
    if MayGrow(g, d) && g.rows >= caps.rows then Err(Capacity) else
    var c := StagedCell(g, d);
    var before := BucketRows(g.buckets[d.bucket]);
    var rows := g.rows - before + BucketRows(c.bucket);
    if before > g.rows || rows > caps.rows then Err(Capacity)
    else Ok(Stage(g.buckets[d.bucket := c.bucket], c.total, rows))
  }

  function StageAll(g: Stage, effects: seq<Delta.Delta>, caps: Caps): Result<Stage, ImageError> {
    if effects == [] then Ok(g) else
    var before :- StageAll(g, effects[..|effects| - 1], caps);
    StageStep(before, effects[|effects| - 1], caps)
  }

  /** The candidate a follower stages: a decoded image with a donor's effects replayed. */
  function Staged(image: seq<byte>, effects: seq<Delta.Delta>, caps: Caps): Result<Stage, ImageError> {
    var d :- DecodeImage(image, caps);
    StageAll(StageOf(d), effects, caps)
  }

  // ----- which live effects the candidate covers -----

  datatype RowField = EtagField | SizeField | ClassField | TimeField

  datatype Clause = TombstoneMismatch | RowMismatch(field: RowField)

  /** The first field in which two rows differ as versions. Times decide only where there is
      no entity tag to compare. */
  function VersionDifference(live: Entry, peer: Entry): Option<RowField> {
    if peer.etag != live.etag then Some(EtagField)
    else if peer.size != live.size then Some(SizeField)
    else if peer.storageClass != live.storageClass then Some(ClassField)
    else if live.etag.None? && peer.lastModified != live.lastModified then Some(TimeField)
    else None
  }

  predicate SameRowVersion(live: Entry, peer: Entry) { VersionDifference(live, peer).None? }

  function RowCarried(row: Entry, peer: Option<Entry>, peerDead: Option<Time>): Result<bool, Clause> {
    if peer.Some? && SameRowVersion(row, peer.value) then Ok(false) else
    var second := WholeSeconds(row.lastModified);
    if (peerDead.Some? && WholeSeconds(peerDead.value) > second) ||
       (peer.Some? && WholeSeconds(peer.value.lastModified) > second) then Ok(false) else
    if peerDead.Some? && row.lastModified <= peerDead.value then Err(TombstoneMismatch) else
    if peer.Some? && WholeSeconds(peer.value.lastModified) == second
    then Err(RowMismatch(VersionDifference(row, peer.value).value))
    else Ok(true)
  }

  function TombstoneCarried(at: Time, peer: Option<Entry>, peerDead: Option<Time>): Result<bool, Clause> {
    if peerDead.Some? && peerDead.value >= at then Ok(false) else
    if peer.Some? && peer.value.lastModified > at then Ok(false) else
    if peer.Some? && WholeSeconds(peer.value.lastModified) == WholeSeconds(at) then Err(TombstoneMismatch)
    else Ok(true)
  }

  function RowVerdict(live: Bucket, peer: Bucket, key: Text): Result<bool, Clause>
    requires key in live.keys.rows
  {
    RowCarried(live.keys.rows[key], RowOf(peer, key), TombOf(peer, key))
  }

  function TombstoneVerdict(live: Bucket, peer: Bucket, key: Text): Result<bool, Clause>
    requires key in live.gone.rows
  {
    TombstoneCarried(live.gone.rows[key], RowOf(peer, key), TombOf(peer, key))
  }

  /** No verdict on the bucket's rows and tombstones refuses. */
  predicate Orderable(live: Bucket, peer: Bucket) {
    && (forall key :: key in live.keys.rows ==> RowVerdict(live, peer, key).Ok?)
    && (forall key :: key in live.gone.rows ==> TombstoneVerdict(live, peer, key).Ok?)
  }

  /** The coverage check, with exactly aligned native cuts given by `aligned`. */
  predicate Coverable(live: Index, peer: Stage, aligned: bool, universe: seq<Text>, maxRows: nat) {
    && universe != [] && Ascending(universe)
    && |peer.buckets| == |universe|
    && (forall name :: name in live.buckets ==> name in universe && live.buckets[name].rebuild.None?)
    && aligned
    && (forall name :: name in universe ==>
          name in peer.buckets && peer.buckets[name].synced && peer.buckets[name].fences == map[])
    && RowTotal(live.buckets, Sorted(live.buckets.Keys)) <= maxRows
    && (forall name :: name in live.buckets ==> Orderable(live.buckets[name], peer.buckets[name]))
  }

  /** Coverage, and a generation left to take in every live bucket. */
  predicate Installable(live: Index, peer: Stage, aligned: bool, universe: seq<Text>, maxRows: nat) {
    && Coverable(live, peer, aligned, universe, maxRows)
    && (forall name :: name in live.buckets ==> live.buckets[name].generation + 1 < U64_LIMIT)
  }

  // ----- carrying them over -----

  function CarriesDelete(live: Bucket, peer: Bucket, key: Text): bool {
    key in live.gone.rows && TombstoneVerdict(live, peer, key) == Ok(true)
  }

  function CarriesRow(live: Bucket, peer: Bucket, key: Text): bool {
    key in live.keys.rows && RowVerdict(live, peer, key) == Ok(true)
  }

  function CarryDelete(c: Cell, live: Bucket, peer: Bucket, key: Text): Cell {
    if CarriesDelete(live, peer, key)
    then RemoveRow(Cell(c.bucket.(gone := GoneRaise(c.bucket.gone, key, live.gone.rows[key])), c.total), key)
    else c
  }

  function CarryRow(c: Cell, live: Bucket, peer: Bucket, key: Text): Cell {
    if CarriesRow(live, peer, key) then InsertRow(c, key, live.keys.rows[key]) else c
  }

  function CarryDeletes(c: Cell, live: Bucket, peer: Bucket, keys: seq<Text>): Cell {
    if keys == [] then c
    else CarryDelete(CarryDeletes(c, live, peer, keys[..|keys| - 1]), live, peer, keys[|keys| - 1])
  }

  function CarryRows(c: Cell, live: Bucket, peer: Bucket, keys: seq<Text>): Cell {
    if keys == [] then c
    else CarryRow(CarryRows(c, live, peer, keys[..|keys| - 1]), live, peer, keys[|keys| - 1])
  }

  /** The candidate bucket under its local history: the next generation, and the open
      fences with the epoch later ones draw from. */
  function Adopted(live: Index, name: Text, b: Bucket): Bucket
    requires name in live.buckets ==> live.buckets[name].generation + 1 < U64_LIMIT
  {
    if name in live.buckets
    then b.(generation := live.buckets[name].generation + 1, epoch := live.buckets[name].epoch,
            fences := live.buckets[name].fences)
    else b.(generation := 1)
  }

  function AdoptAll(live: Index, peer: Stage): Decoded
    requires forall name :: name in live.buckets ==> live.buckets[name].generation + 1 < U64_LIMIT
  {
    Decoded(map name | name in peer.buckets :: Adopted(live, name, peer.buckets[name]), peer.stats)
  }

  function PassDeletes(d: Decoded, live: Index, peer: Stage, names: seq<Text>): Decoded {
    if names == [] then d else
      var name := names[|names| - 1];
      var done := PassDeletes(d, live, peer, names[..|names| - 1]);
      if name !in live.buckets || name !in peer.buckets || name !in done.buckets then done else
      var b := live.buckets[name];
      var c := CarryDeletes(Cell(done.buckets[name], done.stats), b, peer.buckets[name], GoneOrder(b));
      Decoded(done.buckets[name := c.bucket], c.total)
  }

  function PassRows(d: Decoded, live: Index, peer: Stage, names: seq<Text>): Decoded {
    if names == [] then d else
      var name := names[|names| - 1];
      var done := PassRows(d, live, peer, names[..|names| - 1]);
      if name !in live.buckets || name !in peer.buckets || name !in done.buckets then done else
      var b := live.buckets[name];
      var c := CarryRows(Cell(done.buckets[name], done.stats), b, peer.buckets[name], KeyOrder(b));
      Decoded(done.buckets[name := c.bucket], c.total)
  }

  /** The order of the passes matters: run the other way, a carried row would fall to a
      carried tombstone below it. */
  function Carried(live: Index, peer: Stage, universe: seq<Text>): Decoded
    requires forall name :: name in live.buckets ==> live.buckets[name].generation + 1 < U64_LIMIT
  {
    PassRows(PassDeletes(AdoptAll(live, peer), live, peer, universe), live, peer, universe)
  }

  function InstallStage(live: Index, peer: Stage, aligned: bool, universe: seq<Text>, maxRows: nat): Index {
    if !Installable(live, peer, aligned, universe, maxRows) then live else
    var d := Carried(live, peer, universe);
    Index(d.buckets, d.stats, None, live.cuts)
  }

  function InstallImage(live: Index, image: seq<byte>, effects: seq<Delta.Delta>, caps: Caps, aligned: bool,
                        universe: seq<Text>): Index {
    match Staged(image, effects, caps)
    case Err(_) => live
    case Ok(peer) => InstallStage(live, peer, aligned, universe, caps.rows)
  }
}

/** Every operation on the index as one step, and runs of them. */
module Machine {
  import opened Base
  import opened Entries
  import opened Buckets
  import opened Image
  import opened Index
  import opened Install
  import Delta

  /** `admitted` is the journal's or the admission owner's answer; `aligned` the alignment
      verdict on native cuts. Both are the environment's to choose. */
  datatype Op =
    | PutOp(bucket: Text, key: Text, entry: Entry, definitive: bool, id: Option<NativeCut>, admitted: bool)
    | DelOp(bucket: Text, key: Text, at: Time, sweep: bool, id: Option<NativeCut>, admitted: bool)
    | CompleteOp(bucket: Text, key: Text, fill: Fill, admitted: bool)
    | FenceOp(bucket: Text, key: Text, id: Option<NativeCut>, own: bool)
    | ResolveOp(bucket: Text, key: Text, token: nat, truth: Authoritative)
    | ResyncOp(bucket: Text)
    | RemoveOp(bucket: Text)
    | ListOp(bucket: Text, generation: u64, rows: seq<Listed>)
    | FinishOp(bucket: Text, generation: u64)
    | DiscardOp(missed: NativeCut)
    | RegisterOp(cut: NativeCut)
    | SealOp(cut: NativeCut, admitted: bool)
    | RenewOp(sealed: NativeCut, epoch: u64, admitted: bool)
    | CaptureOp(universe: seq<Text>, caps: Caps, maxEvent: nat, admitted: bool)
    | RetireOp
    | InstallOp(image: seq<byte>, effects: seq<Delta.Delta>, caps: Caps, aligned: bool, universe: seq<Text>)

  function Step(s: Index, op: Op): Index {
    match op
    case PutOp(b, k, e, definitive, id, admitted) => Put(s, b, k, e, definitive, id, admitted)
    case DelOp(b, k, at, sweep, id, admitted) => Del(s, b, k, at, sweep, id, admitted)
    case CompleteOp(b, k, fill, admitted) => Complete(s, b, k, fill, admitted)
    case FenceOp(b, k, id, own) => Fence(s, b, k, id, own)
    case ResolveOp(b, k, token, truth) => Resolve(s, b, k, token, truth)
    case ResyncOp(b) => Resync(s, b)
    case RemoveOp(b) => RemoveBucket(s, b)
    case ListOp(b, generation, rows) => ListPage(s, b, generation, rows)
    case FinishOp(b, generation) => Finish(s, b, generation)
    case DiscardOp(missed) => DiscardForGap(s, missed)
    case RegisterOp(cut) => Register(s, cut)
    case SealOp(cut, admitted) => Seal(s, cut, admitted)
    case RenewOp(sealed, epoch, admitted) => Renew(s, sealed, epoch, admitted)
    case CaptureOp(universe, caps, maxEvent, admitted) => BeginCapture(s, universe, caps, maxEvent, admitted)
    case RetireOp => Retire(s)
    case InstallOp(image, effects, caps, aligned, universe) => InstallImage(s, image, effects, caps, aligned, universe)
  }

  function Run(s: Index, ops: seq<Op>): Index {
    if ops == [] then s else Step(Run(s, ops[..|ops| - 1]), ops[|ops| - 1])
  }
}
