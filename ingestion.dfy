/** The ingestion side of src/indexer.rs: decoding an ERC-20 `Transfer` log,
    classifying it against the watched exchange addresses, building the
    `Transfer` record and handing it to the store, one log after another.
    The node connection is not modelled: the log stream is a sequence, the
    block lookup and the amount normaliser are functions in the `Context`,
    and database failures are a `Fault` per log. */
module Ingestion {
  import opened Types
  import opened BigEndian
  import opened Config
  import opened Storage

  /** The fields of an ethers `Log` that `process_log` reads, plus the
      emitting contract, which it does not check. */
  datatype Log = Log(
    address: Address,
    topics: seq<H256>,
    data: seq<Byte>,
    blockNumber: Option<U64>,
    transactionHash: Option<H256>,
    logIndex: Option<U64>)

  /** Outcome of `get_block`: the request fails, the node has no such
      block, or the block with its timestamp. */
  datatype BlockLookup = Unreachable | NoSuchBlock | Block(timestamp: U64)

  datatype IndexError =
    | MissingBlockNumber
    | BlockFetchFailed
    | BlockNotFound
    | StoreFailed(cause: DbError)

  datatype StartupError =
    | DecimalsCallFailed
    | DecimalsOverflow
    | StoreUnavailable(cause: DbError)

  /** What an `Indexer` holds besides its store: the exchange id, the token
      and its decimals, the watched address set, and the two collaborators
      the model keeps abstract (the f64 normaliser and the block lookup). */
  datatype Context = Context(
    exchangeId: int,
    token: Address,
    decimals: U8,
    watched: set<Address>,
    normalize: (nat, U8) -> real,
    getBlock: U64 -> BlockLookup)

  // -----------------------------------------------------------------------
  // Decoding

  /** `Address::from_slice(&topic[12..])`: an indexed address is the low 20
      bytes of its 32-byte topic. */
  function TopicAddress(topic: H256): (a: Address)
    ensures BeValue(a) == BeValue(topic) % Pow256(20)
  {
    BeLowBytes(topic, 20);
    topic[12..]
  }

  /** An address as an indexed topic: 12 zero bytes, then the address. */
  function AddressTopic(a: Address): (t: H256)
    ensures TopicAddress(t) == a
    ensures BeValue(t) == BeValue(a)
  {
    var zeros: seq<Byte> := seq(12, i => 0);
    ZerosHaveNoValue(zeros);
    BeConcat(zeros, a);
    assert (zeros + a)[12..] == a;
    zeros + a
  }

  lemma {:induction false} ZerosHaveNoValue(z: seq<Byte>)
    requires forall i :: 0 <= i < |z| ==> z[i] == 0
    ensures BeValue(z) == 0
  {
    if z != [] {
      ZerosHaveNoValue(z[..|z| - 1]);
    }
  }

  /** A topic whose top 12 bytes are zero is the topic of its address. */
  lemma AddressTopicRoundTrip(t: H256)
    requires forall i :: 0 <= i < 12 ==> t[i] == 0
    ensures AddressTopic(TopicAddress(t)) == t
  {
    assert forall i :: 0 <= i < 32 ==> AddressTopic(TopicAddress(t))[i] == t[i];
  }

  /** `H256::from_slice`: only a 32-byte slice is accepted; any other
      length panics (None here). */
  function TopicFromSlice(b: seq<Byte>): (r: Option<H256>)
    ensures r.Some? <==> |b| == 32
    ensures r.Some? ==> r.value == b
  {
    if |b| == 32 then var h: H256 := b; Some(h) else None
  }

  /** The filter topics as `run` builds them: `H256::from_slice` of each
      watched address, which panics (None) on the first one. */
  function WatchedTopicsAsWritten(watched: set<Address>): (r: Option<set<H256>>)
    ensures r.Some? ==> forall a :: a in watched ==> TopicFromSlice(a).Some?
  {
    if forall a :: a in watched ==> TopicFromSlice(a).Some? then
      Some(set a | a in watched && TopicFromSlice(a).Some? :: TopicFromSlice(a).value)
    else None
  }

  /** Every address is 20 bytes, so `run` panics as soon as one address is
      watched. */
  lemma WatchedTopicsAsWrittenPanics(watched: set<Address>)
    requires watched != {}
    ensures WatchedTopicsAsWritten(watched) == None
  {
    var a :| a in watched;
    assert TopicFromSlice(a) == None;
  }

  /** The topics a filter on an indexed sender or recipient needs for the
      watched set: the address topic of each watched address. A topic of
      the set names a watched address, and every watched address has its
      topic in the set. */
  function WatchedTopics(watched: set<Address>): (topics: set<H256>)
    ensures forall a: Address :: a in watched <==> AddressTopic(a) in topics
    ensures forall t :: t in topics ==> TopicAddress(t) in watched
  {
    set a | a in watched :: AddressTopic(a)
  }

  /** `U256::from_big_endian(log.data.get(0..32).unwrap_or(&[0u8; 32]))`. */
  function RawAmount(data: seq<Byte>): (r: nat)
    ensures r < Pow256(32)
    ensures |data| < 32 ==> r == 0
  {
    if |data| >= 32 then BeValue(data[..32]) else 0
  }

  /** The amount is the first ABI word of the data; later bytes are
      ignored. */
  lemma RawAmountOfWord(n: nat, rest: seq<Byte>)
    requires n < Pow256(32)
    ensures RawAmount(BeEncode(n, 32) + rest) == n
  {
    var data := BeEncode(n, 32) + rest;
    assert data[..32] == BeEncode(n, 32);
    BeDecodeEncode(n, 32);
  }

  /** Decide the direction: Some(true) for an inflow (the recipient is
      watched), Some(false) for an outflow, None when neither side is
      watched. */
  function Classify(from: Address, to: Address, watched: set<Address>): (d: Option<bool>)
    ensures d.None? <==> from !in watched && to !in watched
    ensures d == Some(true) <==> to in watched
    ensures d == Some(false) <==> from in watched && to !in watched
  {
    var isIn := to in watched;
    var isOut := from in watched;
    if !(isIn || isOut) then None else Some(isIn)
  }

  /** A transfer between two watched addresses counts as an inflow only. */
  lemma InternalTransferIsInflow(from: Address, to: Address, watched: set<Address>)
    requires from in watched && to in watched
    ensures Classify(from, to, watched) == Some(true)
  {
  }

  /** The decimals read from the return data of `decimals()`: the value of
      its last (at most) 32 bytes, then `as_u32()`, which panics above
      u32::MAX (None here), then `as u8`, which keeps the low byte. */
  function DecimalsFromCall(bytes: seq<Byte>): (r: Option<U8>)
    ensures var word := bytes[if |bytes| >= 32 then |bytes| - 32 else 0..];
      && (r.None? <==> BeValue(word) >= TWO_32)
      && (r.Some? ==> r.value == BeValue(word) % 256)
  {
    var word := bytes[if |bytes| >= 32 then |bytes| - 32 else 0..];
    var v := BeValue(word);
    if v < TWO_32 then Some(v % 256) else None
  }

  /** Whatever precedes it, a final ABI word holding `v` yields `v` mod 256
      when `v` fits 32 bits and a panic otherwise. */
  lemma DecimalsOfWord(prefix: seq<Byte>, v: nat)
    requires v < Pow256(32)
    ensures DecimalsFromCall(prefix + BeEncode(v, 32)) == if v < TWO_32 then Some(v % 256) else None
  {
    var bytes := prefix + BeEncode(v, 32);
    assert bytes[|bytes| - 32..] == BeEncode(v, 32);
    BeDecodeEncode(v, 32);
  }

  /** An ABI-encoded `uint8` round-trips. */
  lemma DecimalsRoundTrip(prefix: seq<Byte>, d: U8)
    ensures d < Pow256(32)
    ensures DecimalsFromCall(prefix + BeEncode(d, 32)) == Some(d)
  {
    assert d < TWO_32 && d % 256 == d;
    assert Pow256(1) == 256;
    Pow256Grows(1, 32);
    DecimalsOfWord(prefix, d);
  }

  /** The decimals of `Indexer::new`: the configured value if any, else the
      result of the `decimals()` call (None: the call failed). */
  function ResolveDecimals(configured: Option<U8>, call: Option<seq<Byte>>): (r: Result<U8, StartupError>)
    ensures configured.Some? ==> r == Ok(configured.value)
    ensures configured.None? && call.None? ==> r == Err(DecimalsCallFailed)
    ensures configured.None? && call.Some? ==>
      (r.Ok? <==> DecimalsFromCall(call.value).Some?) && (r.Ok? ==> r.value == DecimalsFromCall(call.value).value)
  {
    match configured
    case Some(d) => Ok(d)
    case None =>
      match call
      case None => Err(DecimalsCallFailed)
      case Some(bytes) =>
        match DecimalsFromCall(bytes)
        case None => Err(DecimalsOverflow)
        case Some(d) => Ok(d)
  }

  // -----------------------------------------------------------------------
  // process_log as a function

  /** What `process_log` does with a log: nothing, fail with an error, or
      record a transfer in a direction. */
  datatype Decision = Ignore | Reject(error: IndexError) | Record(transfer: Transfer, isInflow: bool)

  function Decide(ctx: Context, log: Log): (d: Decision)
    ensures |log.topics| != 3 ==> d == Ignore
    ensures |log.topics| == 3 ==>
      (d.Ignore? <==> TopicAddress(log.topics[1]) !in ctx.watched && TopicAddress(log.topics[2]) !in ctx.watched)
    ensures !d.Ignore? ==> (d == Reject(MissingBlockNumber) <==> log.blockNumber.None?)
    ensures !d.Ignore? && log.blockNumber.Some? ==> (d.Record? <==> ctx.getBlock(log.blockNumber.value).Block?)
    ensures d.Reject? ==> d.error != BlockFetchFailed || ctx.getBlock(log.blockNumber.value).Unreachable?
    ensures !d.Ignore? && log.blockNumber.Some? && ctx.getBlock(log.blockNumber.value).Unreachable? ==>
      d == Reject(BlockFetchFailed)
    ensures !d.Ignore? && log.blockNumber.Some? && ctx.getBlock(log.blockNumber.value).NoSuchBlock? ==>
      d == Reject(BlockNotFound)
    ensures d.Reject? ==> !d.error.StoreFailed?
    ensures d.Record? ==>
      && |log.topics| == 3
      && d.isInflow == (log.topics[2][12..] in ctx.watched)
      && d.transfer.from == log.topics[1][12..]
      && d.transfer.to == log.topics[2][12..]
      && d.transfer.blockNumber == log.blockNumber.value
      && d.transfer.timestamp == ctx.getBlock(log.blockNumber.value).timestamp
      && d.transfer.txHash == log.transactionHash.GetOr(ZeroHash)
      && d.transfer.logIndex == log.logIndex.GetOr(0)
      && d.transfer.token == ctx.token
      && d.transfer.amountRaw == RawAmount(log.data)
      && d.transfer.amount == ctx.normalize(RawAmount(log.data), ctx.decimals)
  {
    if |log.topics| != 3 then Ignore
    else
      var from := TopicAddress(log.topics[1]);
      var to := TopicAddress(log.topics[2]);
      match Classify(from, to, ctx.watched)
      case None => Ignore
      case Some(isIn) =>
        var amountRaw := RawAmount(log.data);
        var amount := ctx.normalize(amountRaw, ctx.decimals);
        match log.blockNumber
        case None => Reject(MissingBlockNumber)
        case Some(bn) =>
          match ctx.getBlock(bn)
          case Unreachable => Reject(BlockFetchFailed)
          case NoSuchBlock => Reject(BlockNotFound)
          case Block(ts) =>
            Record(Transfer(bn, log.transactionHash.GetOr(ZeroHash), log.logIndex.GetOr(0),
                            ctx.token, from, to, amountRaw, amount, ts), isIn)
  }

  /** The store after `process_log`. A log that ends in an error leaves
      the store as it was; no log adds an exchange address or a netflow
      row, or lowers the checkpoint. */
  function Step(s: Tables, ctx: Context, log: Log, fault: Fault): (r: Tables)
    ensures StepResult(ctx, log, fault).Fail? ==> r == s
    ensures r.exchangeAddresses == s.exchangeAddresses
    ensures r.netFlows.Keys == s.netFlows.Keys
    ensures r.lastBlockSeen >= s.lastBlockSeen
  {
    match Decide(ctx, log)
    case Record(t, isIn) => if Fails(fault, ApplyCalls) then s else ApplyTransfer(s, ctx.exchangeId, t, isIn)
    case _ => s
  }

  /** The result `process_log` returns: success for an ignored log and for
      a committed transfer; the decision's error for a rejected log; the
      failing call for a transfer the store rolled back. */
  function StepResult(ctx: Context, log: Log, fault: Fault): (r: Outcome<IndexError>)
    ensures r.Pass? <==> Decide(ctx, log).Ignore? || (Decide(ctx, log).Record? && !Fails(fault, ApplyCalls))
    ensures Decide(ctx, log).Reject? ==> r == Fail(Decide(ctx, log).error)
    ensures r.Fail? && r.error.StoreFailed? ==> Decide(ctx, log).Record? && r.error.cause == CallFailed(fault.call)
  {
    match Decide(ctx, log)
    case Ignore => Pass
    case Reject(e) => Fail(e)
    case Record(_, _) => if Fails(fault, ApplyCalls) then Fail(StoreFailed(CallFailed(fault.call))) else Pass
  }

  /** The store after `run` has processed `logs`, the i-th under fault
      `faults(i)`: every log is processed whatever happened to the ones
      before it. A run adds no exchange address or netflow row and never
      lowers the checkpoint. */
  function RunSpec(s: Tables, ctx: Context, logs: seq<Log>, faults: nat -> Fault): (r: Tables)
    ensures r.exchangeAddresses == s.exchangeAddresses
    ensures r.netFlows.Keys == s.netFlows.Keys
    ensures r.lastBlockSeen >= s.lastBlockSeen
  {
    if logs == [] then s
    else
      var n := |logs| - 1;
      Step(RunSpec(s, ctx, logs[..n], faults), ctx, logs[n], faults(n))
  }

  /** The (transfer, direction) pairs that reached the store and were
      committed, in stream order: at most one per log. */
  function Applied(ctx: Context, logs: seq<Log>, faults: nat -> Fault): (r: seq<(Transfer, bool)>)
    ensures |r| <= |logs|
  {
    if logs == [] then []
    else
      var n := |logs| - 1;
      var last := match Decide(ctx, logs[n])
        case Record(t, isIn) => if Fails(faults(n), ApplyCalls) then [] else [(t, isIn)]
        case _ => [];
      Applied(ctx, logs[..n], faults) + last
  }

  // -----------------------------------------------------------------------
  // Properties of the loop

  /** Running the loop is applying, in order, exactly the transfers that
      were recorded and committed; ignored and failed logs contribute
      nothing and do not stop the ones after them. */
  lemma {:induction false} RunIsFoldOfApplied(s: Tables, ctx: Context, logs: seq<Log>, faults: nat -> Fault)
    ensures RunSpec(s, ctx, logs, faults) == ApplyAll(s, ctx.exchangeId, Applied(ctx, logs, faults))
  {
    if logs != [] {
      var n := |logs| - 1;
      RunIsFoldOfApplied(s, ctx, logs[..n], faults);
      var prefix := Applied(ctx, logs[..n], faults);
      match Decide(ctx, logs[n])
      case Record(t, isIn) =>
        if !Fails(faults(n), ApplyCalls) {
          assert Applied(ctx, logs, faults) == prefix + [(t, isIn)];
          assert (prefix + [(t, isIn)])[..|prefix|] == prefix;
        } else {
          assert Applied(ctx, logs, faults) == prefix + [];
          assert prefix + [] == prefix;
        }
      case _ =>
        assert Applied(ctx, logs, faults) == prefix + [];
        assert prefix + [] == prefix;
    }
  }

  /** Every element of `Applied` comes from a recorded log. */
  lemma {:induction false} AppliedComeFromLogs(ctx: Context, logs: seq<Log>, faults: nat -> Fault)
    ensures forall p :: p in Applied(ctx, logs, faults) ==> exists i :: 0 <= i < |logs| && Decide(ctx, logs[i]) == Record(p.0, p.1)
  {
    if logs != [] {
      var n := |logs| - 1;
      AppliedComeFromLogs(ctx, logs[..n], faults);
      forall p | p in Applied(ctx, logs, faults)
        ensures exists i :: 0 <= i < |logs| && Decide(ctx, logs[i]) == Record(p.0, p.1)
      {
        if p in Applied(ctx, logs[..n], faults) {
          var i :| 0 <= i < n && Decide(ctx, logs[..n][i]) == Record(p.0, p.1);
          assert logs[..n][i] == logs[i];
        } else {
          assert Decide(ctx, logs[n]) == Record(p.0, p.1);
        }
      }
    }
  }

  /** A stream in which no log gets recorded leaves the store as it was. */
  lemma {:induction false} UnrecordedLogsChangeNothing(s: Tables, ctx: Context, logs: seq<Log>, faults: nat -> Fault)
    requires forall i :: 0 <= i < |logs| ==> !Decide(ctx, logs[i]).Record?
    ensures RunSpec(s, ctx, logs, faults) == s
  {
    if logs != [] {
      var n := |logs| - 1;
      UnrecordedLogsChangeNothing(s, ctx, logs[..n], faults);
    }
  }

  /** Over a whole run the checkpoint never moves back, and it ends at or
      above the block number of every transfer the run committed. */
  lemma RunRaisesCheckpoint(s: Tables, ctx: Context, logs: seq<Log>, faults: nat -> Fault)
    ensures var r := RunSpec(s, ctx, logs, faults);
      && r.lastBlockSeen >= s.lastBlockSeen
      && forall p :: p in Applied(ctx, logs, faults) ==> r.lastBlockSeen >= AsI64(p.0.blockNumber)
  {
    RunIsFoldOfApplied(s, ctx, logs, faults);
    CheckpointIsMax(s, ctx.exchangeId, Applied(ctx, logs, faults));
  }

  /** A run keeps the store's invariant: net = in - out on every row and the
      checkpoint covers every recorded block. */
  lemma RunKeepsConsistent(s: Tables, ctx: Context, logs: seq<Log>, faults: nat -> Fault)
    requires Consistent(s)
    ensures Consistent(RunSpec(s, ctx, logs, faults))
  {
    RunIsFoldOfApplied(s, ctx, logs, faults);
    ApplyAllKeepsConsistent(s, ctx.exchangeId, Applied(ctx, logs, faults));
  }

  // -----------------------------------------------------------------------
  // The indexer

  class Indexer {
    const ctx: Context
    const db: Db

    constructor (ctx: Context, db: Db)
      ensures this.ctx == ctx && this.db == db
    {
      this.ctx := ctx;
      this.db := db;
    }

    /** `Indexer::new`: resolve the decimals, make sure the netflow row for
        exchange 1 exists, record the watched addresses, and build the
        watched set. Each step's failure aborts the remaining ones; the row
        insert is not undone when the address upsert fails. */
    static method New(cfg: AppConfig, db: Db, decimalsCall: Option<seq<Byte>>,
                      normalize: (nat, U8) -> real, getBlock: U64 -> BlockLookup,
                      rowFault: Fault, addrFault: Fault)
      returns (r: Result<Indexer, StartupError>)
      modifies db
      ensures var dec := ResolveDecimals(cfg.polDecimals, decimalsCall);
        var rowOk := dec.Ok? && !Fails(rowFault, 1);
        var addrsOk := rowOk && !Fails(addrFault, |cfg.binanceAddrs| + 2);
        && (r.Ok? <==> addrsOk)
        && (!rowOk ==> db.State() == old(db.State()))
        && (rowOk ==>
              var withRow := EnsureRow(old(db.State()), 1, cfg.polToken, cfg.polSymbol, dec.value);
              db.State() == if addrsOk then UpsertAddresses(withRow, 1, cfg.binanceAddrs) else withRow)
        && (r.Ok? ==>
              && r.value.db == db
              && r.value.ctx == Context(1, cfg.polToken, dec.value, (set a | a in cfg.binanceAddrs), normalize, getBlock))
    {
      var dec := ResolveDecimals(cfg.polDecimals, decimalsCall);
      if dec.Err? {
        return Err(dec.error);
      }
      var decimals := dec.value;
      var rowDone := db.EnsureNetflowRow(1, cfg.polToken, cfg.polSymbol, decimals, rowFault);
      if rowDone.Fail? {
        return Err(StoreUnavailable(rowDone.error));
      }
      var addrsDone := db.UpsertExchangeAddresses(1, cfg.binanceAddrs, addrFault);
      if addrsDone.Fail? {
        return Err(StoreUnavailable(addrsDone.error));
      }
      var watched := set a | a in cfg.binanceAddrs;
      var indexer := new Indexer(Context(1, cfg.polToken, decimals, watched, normalize, getBlock), db);
      return Ok(indexer);
    }

    /** `process_log`. `fetched` tells whether the block lookup was made. */
    method ProcessLog(log: Log, fault: Fault) returns (r: Outcome<IndexError>, ghost fetched: bool)
      modifies db
      ensures db.State() == Step(old(db.State()), ctx, log, fault)
      ensures r == StepResult(ctx, log, fault)
      ensures fetched <==> !Decide(ctx, log).Ignore? && log.blockNumber.Some?
    {
      fetched := false;
      if |log.topics| != 3 {
        return Pass, fetched;
      }
      var from := TopicAddress(log.topics[1]);
      var to := TopicAddress(log.topics[2]);

      var isIn := to in ctx.watched;
      var isOut := from in ctx.watched;
      if !(isIn || isOut) {
        return Pass, fetched;
      }

      var amountRaw := RawAmount(log.data);
      var amount := ctx.normalize(amountRaw, ctx.decimals);

      if log.blockNumber.None? {
        return Fail(MissingBlockNumber), fetched;
      }
      var bn := log.blockNumber.value;
      var block := ctx.getBlock(bn);
      fetched := true;
      if block.Unreachable? {
        return Fail(BlockFetchFailed), fetched;
      }
      if block.NoSuchBlock? {
        return Fail(BlockNotFound), fetched;
      }

      var t := Transfer(bn, log.transactionHash.GetOr(ZeroHash), log.logIndex.GetOr(0),
                        ctx.token, from, to, amountRaw, amount, block.timestamp);
      var stored := db.InsertTransferAndUpdateNetflow(ctx.exchangeId, t, isIn, fault);
      if stored.Fail? {
        return Fail(StoreFailed(stored.error)), fetched;
      }
      return Pass, fetched;
    }

    /** `run`: process every log of the stream in order; an error on one log
        is reported and the loop goes on with the next. */
    method Run(logs: seq<Log>, faults: nat -> Fault)
      modifies db
      ensures db.State() == RunSpec(old(db.State()), ctx, logs, faults)
    {
      var filterTopics := WatchedTopics(ctx.watched);
      var i := 0;
      while i < |logs|
        invariant 0 <= i <= |logs|
        invariant db.State() == RunSpec(old(db.State()), ctx, logs[..i], faults)
      {
        var result, _ := ProcessLog(logs[i], faults(i));
        assert logs[..i + 1][..i] == logs[..i];
        i := i + 1;
      }
      assert logs[..i] == logs;
    }
  }
}
