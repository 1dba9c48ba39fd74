/** The BoltDB context manager of
    `pyapps/trapper-keeper/trapper_keeper/stores/bolt_kvstore.py`.

    A bolt file is a map from bucket names to buckets, a bucket a map from keys
    to values. Opening the store begins one transaction on a private view of the
    file; leaving the `with` block commits that view back iff the store is not
    read-only, whatever happened inside the block, and always closes the
    transaction. The context manager defines `__entry__` instead of
    `__enter__`, so `with store as tx` binds the store itself (the inherited
    `__enter__` returns `self`), and every call on it goes through the attribute
    dispatch of `__getattr__`. */
module BoltKv {
  import opened Wrappers
  import opened FileSystem

  type Bucket = map<Bytes, Bytes>
  type Buckets = map<Bytes, Bucket>

  /** A transaction: whether it may write, the buckets as it sees them, and
      whether it has been closed. */
  datatype Tx = Tx(writable: bool, view: Buckets, closed: bool)

  datatype BoltStore = BoltStore(path: Path, readonly: bool, file: Buckets, tx: Tx)

  /** `BoltStore(bp_fp, readonly)` on a file holding `file`. */
  function Init(path: Path, readonly: bool, file: Buckets): (r: BoltStore)
    ensures r.tx.writable <==> !readonly
    ensures r.tx.view == file && !r.tx.closed
    ensures r.file == file && r.readonly == readonly && r.path == path
  {
    BoltStore(path, readonly, file, Tx(!readonly, file, false))
  }

  /** Where `__getattr__` sends a call. */
  datatype Target = ToDb | ToTx | NoSuchMethod

  /** Public BoltDB methods first, then public Tx methods; any other name gives
      a callable that raises AttributeError when it is invoked. */
  function Dispatch(item: string, dbMethods: set<string>, txMethods: set<string>): (r: Target)
    ensures r == ToDb <==> item in dbMethods
    ensures r == ToTx <==> item !in dbMethods && item in txMethods
    ensures r == NoSuchMethod <==> item !in dbMethods && item !in txMethods
  {
    if item in dbMethods then ToDb
    else if item in txMethods then ToTx
    else NoSuchMethod
  }

  /** Invoking the callable `__getattr__` returned for a name neither class has. */
  function InvokeMissing(item: string, dbMethods: set<string>, txMethods: set<string>): (r: Result<()>)
    requires Dispatch(item, dbMethods, txMethods) == NoSuchMethod
    ensures r.Err? && r.error.AttributeError?
  {
    Err(AttributeError(item))
  }

  /** The operations a block performs: `tx.create_bucket`, `tx.bucket`, and
      `put`/`get` on a bucket obtained from one of them. */
  datatype Op =
    | CreateBucket(name: Bytes)
    | GetBucket(name: Bytes)
    | Put(bucket: Bytes, key: Bytes, value: Bytes)
    | Get(bucket: Bytes, key: Bytes)

  /** What an operation answers: a bucket handle, whether `tx.bucket` found one
      (it answers `None` otherwise), or the value under a key. */
  datatype Reply = BucketHandle(name: Bytes) | Found(present: bool) | Value(value: Option<Bytes>)

  predicate Mutates(op: Op) {
    op.CreateBucket? || op.Put?
  }

  /** One operation on an open transaction. Creating an existing bucket, or
      writing in a read-only transaction, is refused by the library; a bucket
      that `tx.bucket` did not find is `None`, whose `put`/`get` raise
      AttributeError. */
  function Step(tx: Tx, op: Op): (r: Result<(Tx, Reply)>)
    ensures tx.closed ==> r.Err?
    ensures r.Ok? ==> r.value.0.writable == tx.writable && r.value.0.closed == tx.closed
    ensures r.Ok? && !Mutates(op) ==> r.value.0 == tx
    ensures Mutates(op) && !tx.writable ==> r.Err?
    ensures op.CreateBucket? ==> (r.Ok? <==> !tx.closed && tx.writable && op.name !in tx.view)
    ensures op.CreateBucket? && r.Ok? ==> r.value.0.view == tx.view[op.name := map[]]
    ensures op.Put? && r.Ok? ==>
      op.bucket in tx.view && r.value.0.view == tx.view[op.bucket := tx.view[op.bucket][op.key := op.value]]
    ensures op.Get? && r.Ok? ==>
      op.bucket in tx.view
      && r.value.1 == Value(if op.key in tx.view[op.bucket] then Some(tx.view[op.bucket][op.key]) else None)
  {
    if tx.closed then Err(LibraryError("transaction closed"))
    else match op
      case CreateBucket(name) =>
        if !tx.writable then Err(LibraryError("transaction not writable"))
        else if name in tx.view then Err(LibraryError("bucket already exists"))
        else Ok((tx.(view := tx.view[name := map[]]), BucketHandle(name)))
      case GetBucket(name) =>
        Ok((tx, Found(name in tx.view)))
      case Put(b, k, v) =>
        if b !in tx.view then Err(AttributeError("put"))
        else if !tx.writable then Err(LibraryError("transaction not writable"))
        else Ok((tx.(view := tx.view[b := tx.view[b][k := v]]), Value(None)))
      case Get(b, k) =>
        if b !in tx.view then Err(AttributeError("get"))
        else Ok((tx, Value(if k in tx.view[b] then Some(tx.view[b][k]) else None)))
  }

  /** The body of a `with` block: the operations in order, up to the first
      that raises. */
  function Run(tx: Tx, ops: seq<Op>): (r: (Tx, seq<Reply>, Option<Error>))
    ensures r.0.writable == tx.writable && r.0.closed == tx.closed
    ensures |r.1| <= |ops|
    ensures r.2.None? ==> |r.1| == |ops|
    ensures !tx.writable ==> r.0 == tx
    decreases |ops|
  {
    if |ops| == 0 then (tx, [], None)
    else match Step(tx, ops[0])
      case Err(e) => (tx, [], Some(e))
      case Ok((tx1, reply)) =>
        var rest := Run(tx1, ops[1..]);
        (rest.0, [reply] + rest.1, rest.2)
  }

  /** `__exit__`: the exception arguments are ignored; a writable store writes
      and commits its view, and the transaction is closed in every case. */
  function Exit(store: BoltStore, raised: Option<Error>): (r: BoltStore)
    ensures r.tx.closed
    ensures r.readonly == store.readonly && r.path == store.path
    ensures store.readonly ==> r.file == store.file
    ensures !store.readonly ==> r.file == store.tx.view
  {
    var committed := if store.readonly then store.file else store.tx.view;
    store.(file := committed, tx := store.tx.(closed := true))
  }

  /** `with BoltStore(path, readonly) as tx: <ops>`: the file afterwards, the
      replies, and the exception that leaves the block, if any. */
  function Block(path: Path, readonly: bool, file: Buckets, ops: seq<Op>): (r: (Buckets, seq<Reply>, Option<Error>))
    ensures readonly ==> r.0 == file
  {
    var store := Init(path, readonly, file);
    var run := Run(store.tx, ops);
    var after := Exit(store.(tx := run.0), run.2);
    (after.file, run.1, run.2)
  }

  /** Whatever a read-only block does, the file is left as it was, and no
      operation that writes can succeed inside it. */
  lemma {:induction false} ReadonlyNeverCommits(path: Path, file: Buckets, ops: seq<Op>)
    ensures Block(path, true, file, ops).0 == file
    ensures (exists i :: 0 <= i < |ops| && Mutates(ops[i])) ==> Block(path, true, file, ops).2.Some?
  {
    var tx := Init(path, true, file).tx;
    if exists i :: 0 <= i < |ops| && Mutates(ops[i]) {
      var i :| 0 <= i < |ops| && Mutates(ops[i]);
      ReadOnlyRunStopsAt(tx, ops, i);
    }
  }

  lemma {:induction false} ReadOnlyRunStopsAt(tx: Tx, ops: seq<Op>, i: nat)
    requires !tx.writable && i < |ops| && Mutates(ops[i])
    ensures Run(tx, ops).2.Some?
    decreases |ops|
  {
    if Step(tx, ops[0]).Ok? {
      assert i > 0;
      ReadOnlyRunStopsAt(tx, ops[1..], i - 1);
    }
  }

  /** Running a non-empty block is its first step, then the rest. */
  lemma RunFirst(tx: Tx, ops: seq<Op>)
    requires |ops| > 0
    ensures Step(tx, ops[0]).Err? ==> Run(tx, ops) == (tx, [], Some(Step(tx, ops[0]).error))
    ensures Step(tx, ops[0]).Ok? ==>
      var s := Step(tx, ops[0]).value;
      var rest := Run(s.0, ops[1..]);
      Run(tx, ops) == (rest.0, [s.1] + rest.1, rest.2)
  {
  }

  /** A writable block commits the operations that ran before an exception:
      here the second `create_bucket` of the same name raises, and the bucket
      made by the first is still in the file. */
  lemma CommitsDespiteException(path: Path, file: Buckets, name: Bytes)
    requires name !in file
    ensures var r := Block(path, false, file, [CreateBucket(name), CreateBucket(name)]);
      r.2.Some? && name in r.0 && r.0 == file[name := map[]]
  {
    var ops := [CreateBucket(name), CreateBucket(name)];
    var tx := Init(path, false, file).tx;
    var tx1 := tx.(view := file[name := map[]]);
    assert Step(tx, ops[0]) == Ok((tx1, BucketHandle(name)));
    assert Step(tx1, ops[1..][0]).Err?;
    RunFirst(tx1, ops[1..]);
    RunFirst(tx, ops);
  }

  /** A value put in a writable block is read back by a later read-only block,
      as the round trip through `_get_chezmoi_store(readonly=False)` and then
      the default read-only store does. */
  lemma WriteThenRead(path: Path, file: Buckets, b: Bytes, k: Bytes, v: Bytes)
    requires b !in file
    ensures var w := Block(path, false, file, [CreateBucket(b), Put(b, k, v)]);
      && w.2.None?
      && Block(path, true, w.0, [GetBucket(b), Get(b, k)]) == (w.0, [Found(true), Value(Some(v))], None)
  {
    var ops := [CreateBucket(b), Put(b, k, v)];
    var tx := Init(path, false, file).tx;
    var tx1 := tx.(view := file[b := map[]]);
    var tx2 := tx1.(view := tx1.view[b := tx1.view[b][k := v]]);
    assert Step(tx, ops[0]) == Ok((tx1, BucketHandle(b)));
    assert Step(tx1, ops[1..][0]) == Ok((tx2, Value(None)));
    assert |ops[1..][1..]| == 0;
    RunFirst(tx1, ops[1..]);
    assert Run(tx1, ops[1..]) == (tx2, [Value(None)] + [], None);
    assert [Value(None)] + [] == [Value(None)];
    RunFirst(tx, ops);
    assert [BucketHandle(b)] + [Value(None)] == [BucketHandle(b), Value(None)];
    assert Run(tx, ops) == (tx2, [BucketHandle(b), Value(None)], None);
    var lookups := [GetBucket(b), Get(b, k)];
    var rtx := Init(path, true, tx2.view).tx;
    assert tx2.view[b][k] == v;
    assert Step(rtx, lookups[0]) == Ok((rtx, Found(true)));
    assert Step(rtx, lookups[1..][0]) == Ok((rtx, Value(Some(v))));
    assert |lookups[1..][1..]| == 0;
    RunFirst(rtx, lookups[1..]);
    assert [Value(Some(v))] + [] == [Value(Some(v))];
    RunFirst(rtx, lookups);
    assert [Found(true)] + [Value(Some(v))] == [Found(true), Value(Some(v))];
  }
}
