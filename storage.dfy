/** The aggregate store of src/db.rs, with its SQL tables as in-memory
    collections. `Tables` is the value of the whole database; the pure
    functions below say what each operation does to it, and the class `Db`
    holds the tables as fields and performs the operations statement by
    statement inside a transaction.

    The schema file is not part of this model; the model takes as given that
    - a new `net_flows` row starts with zero totals and `last_updated_bn` 0,
    - `net_flows` has the unique key (exchange_id, token_address) and
      `exchange_addresses` the unique key (exchange_id, address), so that a
      map and a set hold them,
    - `erc20_transfers` has the unique key (tx_hash, log_index) and `blocks`
      the unique key `number`, so that INSERT OR IGNORE keeps the first row,
    - the single `checkpoints` row exists and starts at 0. */
module Storage {
  import opened Types

  // -----------------------------------------------------------------------
  // Rows and tables

  /** (exchange_id, token_address), the key of `net_flows`. */
  type NetflowKey = (int, Address)

  /** (tx_hash, log_index), the unique key taken as given of `erc20_transfers`. */
  type TransferKey = (H256, int)

  datatype NetflowRow = NetflowRow(
    tokenSymbol: string,
    tokenDecimals: int,
    cumulativeIn: real,
    cumulativeOut: real,
    cumulativeNet: real,
    lastUpdatedBn: int)

  datatype BlockRow = BlockRow(hash: H256, parentHash: seq<Byte>, timestamp: int)

  /** What `fetch_netflow` returns for a row. */
  datatype Totals = Totals(cumulativeIn: real, cumulativeOut: real, cumulativeNet: real, lastUpdatedBn: int)

  datatype Tables = Tables(
    exchangeAddresses: set<(int, Address)>,
    netFlows: map<NetflowKey, NetflowRow>,
    blocks: map<int, BlockRow>,
    transfers: map<TransferKey, Transfer>,
    lastBlockSeen: int)

  /** The database right after the schema is applied. */
  const EmptyTables: Tables := Tables({}, map[], map[], map[], 0)

  /** The row `ensure_netflow_row` inserts. */
  function ZeroRow(symbol: string, decimals: U8): NetflowRow {
    NetflowRow(symbol, decimals, 0.0, 0.0, 0.0, 0)
  }

  /** `n as i64` for a `u64`: the same 64 bits read as two's complement. */
  function AsI64(n: U64): (r: int)
    ensures -TWO_63 <= r < TWO_63
    ensures (n - r) % TWO_64 == 0
    ensures n < TWO_63 ==> r == n
  {
    if n < TWO_63 then n else n - TWO_64
  }

  function Max(a: int, b: int): int {
    if a >= b then a else b
  }

  /** The key under which a transfer is recorded. */
  function KeyOf(t: Transfer): TransferKey {
    (t.txHash, AsI64(t.logIndex))
  }

  /** Database errors: the operation's `k`-th call to the database (begin,
      a statement, or commit) reported an error. */
  datatype DbError = CallFailed(call: nat)

  /** Which database call of an operation fails, if any. */
  datatype Fault = NoFault | FailAt(call: nat)

  /** An operation that makes `calls` database calls hits the fault. */
  predicate Fails(f: Fault, calls: nat) {
    f.FailAt? && f.call < calls
  }

  /** `insert_transfer_and_update_netflow` makes six calls: begin, four
      statements, commit. */
  const ApplyCalls: nat := 6

  // -----------------------------------------------------------------------
  // The operations as functions of the tables

  /** `ensure_netflow_row`: insert a zero row unless the key is present. */
  function EnsureRow(s: Tables, exchangeId: int, token: Address, symbol: string, decimals: U8): (r: Tables)
    ensures r.netFlows.Keys == s.netFlows.Keys + {(exchangeId, token)}
    ensures forall k :: k in s.netFlows ==> r.netFlows[k] == s.netFlows[k]
    ensures (exchangeId, token) !in s.netFlows ==> r.netFlows[(exchangeId, token)] == ZeroRow(symbol, decimals)
    ensures r.(netFlows := s.netFlows) == s
  {
    if (exchangeId, token) in s.netFlows then s
    else s.(netFlows := s.netFlows[(exchangeId, token) := ZeroRow(symbol, decimals)])
  }

  /** The `exchange_addresses` rows for an address list. */
  function AddressRows(exchangeId: int, addrs: seq<Address>): set<(int, Address)> {
    set a | a in addrs :: (exchangeId, a)
  }

  /** `upsert_exchange_addresses`: INSERT OR IGNORE every address. */
  function UpsertAddresses(s: Tables, exchangeId: int, addrs: seq<Address>): (r: Tables)
    ensures forall a :: a in addrs ==> (exchangeId, a) in r.exchangeAddresses
    ensures s.exchangeAddresses <= r.exchangeAddresses
    ensures forall p :: p in r.exchangeAddresses ==> p in s.exchangeAddresses || (p.0 == exchangeId && p.1 in addrs)
    ensures r.(exchangeAddresses := s.exchangeAddresses) == s
  {
    s.(exchangeAddresses := s.exchangeAddresses + AddressRows(exchangeId, addrs))
  }

  /** The UPDATE of one `net_flows` row. Every right-hand side of the SET
      clause reads the row as it was before the statement. */
  function UpdatedRow(row: NetflowRow, amount: real, blockNumber: int, isInflow: bool): (r: NetflowRow)
    ensures r.cumulativeNet == r.cumulativeIn - r.cumulativeOut
    ensures isInflow ==> r.cumulativeIn == row.cumulativeIn + amount && r.cumulativeOut == row.cumulativeOut
    ensures !isInflow ==> r.cumulativeOut == row.cumulativeOut + amount && r.cumulativeIn == row.cumulativeIn
    ensures r.lastUpdatedBn == blockNumber
    ensures r.tokenSymbol == row.tokenSymbol && r.tokenDecimals == row.tokenDecimals
  {
    if isInflow then
      row.(cumulativeIn := row.cumulativeIn + amount,
           cumulativeNet := row.cumulativeIn + amount - row.cumulativeOut,
           lastUpdatedBn := blockNumber)
    else
      row.(cumulativeOut := row.cumulativeOut + amount,
           cumulativeNet := row.cumulativeIn - (row.cumulativeOut + amount),
           lastUpdatedBn := blockNumber)
  }

  /** INSERT OR IGNORE INTO blocks: the block row (whose hash column
      receives the transaction hash) unless the number is present. */
  function RecordBlock(s: Tables, t: Transfer): (r: Tables)
    ensures r.blocks.Keys == s.blocks.Keys + {AsI64(t.blockNumber)}
    ensures forall n :: n in s.blocks ==> r.blocks[n] == s.blocks[n]
    ensures r.(blocks := s.blocks) == s
  {
    var bn := AsI64(t.blockNumber);
    if bn in s.blocks then s
    else s.(blocks := s.blocks[bn := BlockRow(t.txHash, [], AsI64(t.timestamp))])
  }

  /** INSERT OR IGNORE INTO erc20_transfers. */
  function RecordTransfer(s: Tables, t: Transfer): (r: Tables)
    ensures r.transfers.Keys == s.transfers.Keys + {KeyOf(t)}
    ensures forall k :: k in s.transfers ==> r.transfers[k] == s.transfers[k]
    ensures KeyOf(t) !in s.transfers ==> r.transfers[KeyOf(t)] == t
    ensures r.(transfers := s.transfers) == s
  {
    if KeyOf(t) in s.transfers then s
    else s.(transfers := s.transfers[KeyOf(t) := t])
  }

  /** UPDATE net_flows ... WHERE exchange_id = ? AND token_address = ?:
      touches the one matching row, if there is one. */
  function UpdateTotals(s: Tables, exchangeId: int, t: Transfer, isInflow: bool): (r: Tables)
    ensures r.netFlows.Keys == s.netFlows.Keys
    ensures forall k :: k in s.netFlows && k != (exchangeId, t.token) ==> r.netFlows[k] == s.netFlows[k]
    ensures (exchangeId, t.token) in s.netFlows ==>
      r.netFlows[(exchangeId, t.token)] == UpdatedRow(s.netFlows[(exchangeId, t.token)], t.amount, AsI64(t.blockNumber), isInflow)
    ensures r.(netFlows := s.netFlows) == s
  {
    var key := (exchangeId, t.token);
    if key in s.netFlows then
      s.(netFlows := s.netFlows[key := UpdatedRow(s.netFlows[key], t.amount, AsI64(t.blockNumber), isInflow)])
    else s
  }

  /** UPDATE checkpoints SET last_block_seen = MAX(last_block_seen, ?). */
  function RaiseCheckpoint(s: Tables, blockNumber: int): (r: Tables)
    ensures r.lastBlockSeen >= s.lastBlockSeen && r.lastBlockSeen >= blockNumber
    ensures r.lastBlockSeen == s.lastBlockSeen || r.lastBlockSeen == blockNumber
    ensures r.(lastBlockSeen := s.lastBlockSeen) == s
  {
    s.(lastBlockSeen := Max(s.lastBlockSeen, blockNumber))
  }

  /** `insert_transfer_and_update_netflow` when every call succeeds: its
      four statements in order. */
  function ApplyTransfer(s: Tables, exchangeId: int, t: Transfer, isInflow: bool): (r: Tables)
    ensures r.exchangeAddresses == s.exchangeAddresses
    ensures r.lastBlockSeen == Max(s.lastBlockSeen, AsI64(t.blockNumber))
    ensures r.netFlows.Keys == s.netFlows.Keys
  {
    RaiseCheckpoint(UpdateTotals(RecordTransfer(RecordBlock(s, t), t), exchangeId, t, isInflow), AsI64(t.blockNumber))
  }

  /** What an apply does to the tables: block and transfer rows are
      insert-if-absent, and only the (exchange, token) row changes, as
      `UpdatedRow` says. */
  lemma ApplyTransferEffects(s: Tables, exchangeId: int, t: Transfer, isInflow: bool)
    ensures var r := ApplyTransfer(s, exchangeId, t, isInflow);
      && AsI64(t.blockNumber) in r.blocks && KeyOf(t) in r.transfers
      && (forall n :: n in s.blocks ==> n in r.blocks && r.blocks[n] == s.blocks[n])
      && (forall k :: k in s.transfers ==> k in r.transfers && r.transfers[k] == s.transfers[k])
      && (KeyOf(t) !in s.transfers ==> r.transfers[KeyOf(t)] == t)
      && (forall k :: k in s.netFlows && k != (exchangeId, t.token) ==> r.netFlows[k] == s.netFlows[k])
      && ((exchangeId, t.token) in s.netFlows ==>
            r.netFlows[(exchangeId, t.token)] == UpdatedRow(s.netFlows[(exchangeId, t.token)], t.amount, AsI64(t.blockNumber), isInflow))
  {
    ApplyTransferRecords(s, exchangeId, t, isInflow);
    ApplyTransferTotals(s, exchangeId, t, isInflow);
  }

  /** The block and transfer inserts of an apply keep every existing row. */
  lemma ApplyTransferRecords(s: Tables, exchangeId: int, t: Transfer, isInflow: bool)
    ensures var r := ApplyTransfer(s, exchangeId, t, isInflow);
      && r.blocks == (if AsI64(t.blockNumber) in s.blocks then s.blocks
                      else s.blocks[AsI64(t.blockNumber) := BlockRow(t.txHash, [], AsI64(t.timestamp))])
      && r.transfers == (if KeyOf(t) in s.transfers then s.transfers else s.transfers[KeyOf(t) := t])
  {
  }

  /** The totals of an apply are those of the UPDATE alone. */
  lemma ApplyTransferTotals(s: Tables, exchangeId: int, t: Transfer, isInflow: bool)
    ensures ApplyTransfer(s, exchangeId, t, isInflow).netFlows == UpdateTotals(s, exchangeId, t, isInflow).netFlows
  {
  }

  /** `fetch_netflow`: the totals of a row, or None when there is no row. */
  function Fetch(s: Tables, exchangeId: int, token: Address): (r: Option<Totals>)
    ensures r.None? <==> (exchangeId, token) !in s.netFlows
  {
    if (exchangeId, token) in s.netFlows then
      var row := s.netFlows[(exchangeId, token)];
      Some(Totals(row.cumulativeIn, row.cumulativeOut, row.cumulativeNet, row.lastUpdatedBn))
    else None
  }

  /** Applies a sequence of (transfer, is-inflow) pairs in order. */
  function ApplyAll(s: Tables, exchangeId: int, ts: seq<(Transfer, bool)>): Tables {
    if ts == [] then s
    else
      var n := |ts| - 1;
      ApplyTransfer(ApplyAll(s, exchangeId, ts[..n]), exchangeId, ts[n].0, ts[n].1)
  }

  // -----------------------------------------------------------------------
  // Invariant of the store

  /** Every row's net equals in minus out, and `c` is at least every
      recorded block number and every row's last update. */
  ghost predicate BoundedBy(s: Tables, c: int) {
    && (forall k :: k in s.netFlows ==> s.netFlows[k].cumulativeNet == s.netFlows[k].cumulativeIn - s.netFlows[k].cumulativeOut)
    && (forall k :: k in s.netFlows ==> s.netFlows[k].lastUpdatedBn <= c)
    && (forall n :: n in s.blocks ==> n <= c)
    && (forall k :: k in s.transfers ==> AsI64(s.transfers[k].blockNumber) <= c)
  }

  /** The store invariant: the checkpoint bounds every row and block. */
  ghost predicate Consistent(s: Tables) {
    0 <= s.lastBlockSeen && BoundedBy(s, s.lastBlockSeen)
  }

  /** A first start, on an empty database, satisfies the invariant. */
  lemma EmptyIsConsistent()
    ensures Consistent(EmptyTables)
  {
  }

  lemma EnsureRowKeepsConsistent(s: Tables, exchangeId: int, token: Address, symbol: string, decimals: U8)
    requires Consistent(s)
    ensures Consistent(EnsureRow(s, exchangeId, token, symbol, decimals))
  {
  }

  lemma UpsertKeepsConsistent(s: Tables, exchangeId: int, addrs: seq<Address>)
    requires Consistent(s)
    ensures Consistent(UpsertAddresses(s, exchangeId, addrs))
  {
  }

  lemma ApplyKeepsConsistent(s: Tables, exchangeId: int, t: Transfer, isInflow: bool)
    requires Consistent(s)
    ensures Consistent(ApplyTransfer(s, exchangeId, t, isInflow))
  {
    var c := Max(s.lastBlockSeen, AsI64(t.blockNumber));
    var s1 := RecordBlock(s, t);
    RecordBlockBounded(s, t, c);
    var s2 := RecordTransfer(s1, t);
    RecordTransferBounded(s1, t, c);
    var s3 := UpdateTotals(s2, exchangeId, t, isInflow);
    UpdateTotalsBounded(s2, exchangeId, t, isInflow, c);
    assert ApplyTransfer(s, exchangeId, t, isInflow) == s3.(lastBlockSeen := c);
  }

  lemma RecordBlockBounded(s: Tables, t: Transfer, c: int)
    requires BoundedBy(s, s.lastBlockSeen) && s.lastBlockSeen <= c && AsI64(t.blockNumber) <= c
    ensures BoundedBy(RecordBlock(s, t), c)
  {
  }

  lemma RecordTransferBounded(s: Tables, t: Transfer, c: int)
    requires BoundedBy(s, c) && AsI64(t.blockNumber) <= c
    ensures BoundedBy(RecordTransfer(s, t), c)
  {
  }

  lemma UpdateTotalsBounded(s: Tables, exchangeId: int, t: Transfer, isInflow: bool, c: int)
    requires BoundedBy(s, c) && AsI64(t.blockNumber) <= c
    ensures BoundedBy(UpdateTotals(s, exchangeId, t, isInflow), c)
  {
  }

  // -----------------------------------------------------------------------
  // Properties of the operations

  /** `ensure_netflow_row` is insert-if-absent: a second call, whatever its
      symbol and decimals, changes nothing. */
  lemma EnsureRowIdempotent(s: Tables, exchangeId: int, token: Address, symbol: string, decimals: U8, symbol': string, decimals': U8)
    ensures var once := EnsureRow(s, exchangeId, token, symbol, decimals);
      EnsureRow(once, exchangeId, token, symbol', decimals') == once
  {
  }

  /** The checkpoint never moves back, while a row's `last_updated_bn` is
      overwritten by the event's block number, even a lower one. */
  lemma CheckpointMonotoneLastUpdatedNot(s: Tables, exchangeId: int, t: Transfer, isInflow: bool)
    requires (exchangeId, t.token) in s.netFlows
    ensures var r := ApplyTransfer(s, exchangeId, t, isInflow);
      && r.lastBlockSeen >= s.lastBlockSeen
      && r.lastBlockSeen >= AsI64(t.blockNumber)
      && r.netFlows[(exchangeId, t.token)].lastUpdatedBn == AsI64(t.blockNumber)
  {
  }

  /** Applying the same transfer twice: the transfer and block tables
      ignore the second insert, but the totals grow by the amount again. */
  lemma ReapplyCountsTwice(s: Tables, exchangeId: int, t: Transfer, isInflow: bool)
    requires (exchangeId, t.token) in s.netFlows
    ensures var once := ApplyTransfer(s, exchangeId, t, isInflow);
      var twice := ApplyTransfer(once, exchangeId, t, isInflow);
      var key := (exchangeId, t.token);
      && twice.transfers == once.transfers
      && twice.blocks == once.blocks
      && twice.lastBlockSeen == once.lastBlockSeen
      && (isInflow ==> twice.netFlows[key].cumulativeIn == s.netFlows[key].cumulativeIn + 2.0 * t.amount)
      && (!isInflow ==> twice.netFlows[key].cumulativeOut == s.netFlows[key].cumulativeOut + 2.0 * t.amount)
      && (t.amount != 0.0 ==> twice != once)
  {
    var once := ApplyTransfer(s, exchangeId, t, isInflow);
    var twice := ApplyTransfer(once, exchangeId, t, isInflow);
    var key := (exchangeId, t.token);
    ReapplyKeepsRecords(s, exchangeId, t, isInflow);
    ApplyTransferEffects(s, exchangeId, t, isInflow);
    ApplyTransferEffects(once, exchangeId, t, isInflow);
    var row0, row1, row2 := s.netFlows[key], once.netFlows[key], twice.netFlows[key];
    assert row1 == UpdatedRow(row0, t.amount, AsI64(t.blockNumber), isInflow);
    assert row2 == UpdatedRow(row1, t.amount, AsI64(t.blockNumber), isInflow);
    if t.amount != 0.0 {
      if isInflow {
        assert row2.cumulativeIn != row1.cumulativeIn;
      } else {
        assert row2.cumulativeOut != row1.cumulativeOut;
      }
    }
  }

  /** A second apply of the same transfer finds its block and transfer rows
      present and leaves the checkpoint where the first put it. */
  lemma ReapplyKeepsRecords(s: Tables, exchangeId: int, t: Transfer, isInflow: bool)
    ensures var once := ApplyTransfer(s, exchangeId, t, isInflow);
      var twice := ApplyTransfer(once, exchangeId, t, isInflow);
      && twice.transfers == once.transfers
      && twice.blocks == once.blocks
      && twice.lastBlockSeen == once.lastBlockSeen
  {
    ApplyTransferEffects(s, exchangeId, t, isInflow);
  }

  /** With no row for the key, the totals are left alone and no error
      arises; the transfer is still recorded and the checkpoint moves. */
  lemma MissingRowLeavesTotals(s: Tables, exchangeId: int, t: Transfer, isInflow: bool)
    requires (exchangeId, t.token) !in s.netFlows
    ensures ApplyTransfer(s, exchangeId, t, isInflow).netFlows == s.netFlows
  {
  }

  /** An inflow of 1.0 and then an outflow of 0.5 on a fresh row leave
      in = 1.0, out = 0.5, net = 0.5, last update at the second block. */
  lemma InflowThenOutflow(s: Tables, exchangeId: int, tIn: Transfer, tOut: Transfer, symbol: string, decimals: U8)
    requires tIn.token == tOut.token && tIn.amount == 1.0 && tOut.amount == 0.5
    requires s.netFlows == map[(exchangeId, tIn.token) := ZeroRow(symbol, decimals)]
    ensures var r := ApplyTransfer(ApplyTransfer(s, exchangeId, tIn, true), exchangeId, tOut, false);
      r.netFlows == map[(exchangeId, tIn.token) :=
        NetflowRow(symbol, decimals, 1.0, 0.5, 0.5, AsI64(tOut.blockNumber))]
  {
    var mid := ApplyTransfer(s, exchangeId, tIn, true);
    ApplySingleRow(s, exchangeId, tIn, true, ZeroRow(symbol, decimals));
    var midRow := NetflowRow(symbol, decimals, 1.0, 0.0, 1.0, AsI64(tIn.blockNumber));
    assert UpdatedRow(ZeroRow(symbol, decimals), 1.0, AsI64(tIn.blockNumber), true) == midRow;
    ApplySingleRow(mid, exchangeId, tOut, false, midRow);
    assert UpdatedRow(midRow, 0.5, AsI64(tOut.blockNumber), false) ==
      NetflowRow(symbol, decimals, 1.0, 0.5, 0.5, AsI64(tOut.blockNumber));
  }

  /** On a store with a single netflow row, an apply to that row's key
      leaves a single row, updated as `UpdatedRow` says. */
  lemma ApplySingleRow(s: Tables, exchangeId: int, t: Transfer, isInflow: bool, row: NetflowRow)
    requires s.netFlows == map[(exchangeId, t.token) := row]
    ensures ApplyTransfer(s, exchangeId, t, isInflow).netFlows ==
      map[(exchangeId, t.token) := UpdatedRow(row, t.amount, AsI64(t.blockNumber), isInflow)]
  {
    var key := (exchangeId, t.token);
    var s2 := RecordTransfer(RecordBlock(s, t), t);
    assert s2.netFlows == s.netFlows;
    assert UpdateTotals(s2, exchangeId, t, isInflow).netFlows == s.netFlows[key := UpdatedRow(row, t.amount, AsI64(t.blockNumber), isInflow)];
  }

  /** The sum of the amounts of a sequence of transfers. */
  function SumAmounts(ts: seq<(Transfer, bool)>): real {
    if ts == [] then 0.0 else SumAmounts(ts[..|ts| - 1]) + ts[|ts| - 1].0.amount
  }

  /** A run of inflows into one existing row adds up: in grows by the sum of
      the amounts, out is untouched and net is in minus out. */
  lemma {:induction false} InflowsAddUp(s: Tables, exchangeId: int, token: Address, ts: seq<(Transfer, bool)>)
    requires (exchangeId, token) in s.netFlows
    requires forall i :: 0 <= i < |ts| ==> ts[i].1 && ts[i].0.token == token
    ensures var r := ApplyAll(s, exchangeId, ts);
      var key := (exchangeId, token);
      && key in r.netFlows
      && r.netFlows[key].cumulativeIn == s.netFlows[key].cumulativeIn + SumAmounts(ts)
      && r.netFlows[key].cumulativeOut == s.netFlows[key].cumulativeOut
      && (ts != [] ==> r.netFlows[key].cumulativeNet == r.netFlows[key].cumulativeIn - r.netFlows[key].cumulativeOut)
  {
    if ts != [] {
      var n := |ts| - 1;
      InflowsAddUp(s, exchangeId, token, ts[..n]);
    }
  }

  /** The checkpoint after a sequence of applies is the largest of its old
      value and every applied block number. */
  lemma {:induction false} CheckpointIsMax(s: Tables, exchangeId: int, ts: seq<(Transfer, bool)>)
    ensures var r := ApplyAll(s, exchangeId, ts);
      && r.lastBlockSeen >= s.lastBlockSeen
      && (forall i :: 0 <= i < |ts| ==> r.lastBlockSeen >= AsI64(ts[i].0.blockNumber))
      && (r.lastBlockSeen == s.lastBlockSeen || exists i :: 0 <= i < |ts| && r.lastBlockSeen == AsI64(ts[i].0.blockNumber))
  {
    if ts != [] {
      var n := |ts| - 1;
      CheckpointIsMax(s, exchangeId, ts[..n]);
      var prev := ApplyAll(s, exchangeId, ts[..n]);
      var r := ApplyAll(s, exchangeId, ts);
      assert r == ApplyTransfer(prev, exchangeId, ts[n].0, ts[n].1);
      assert r.lastBlockSeen == Max(prev.lastBlockSeen, AsI64(ts[n].0.blockNumber));
      assert prev.lastBlockSeen >= s.lastBlockSeen;
      forall i | 0 <= i < |ts|
        ensures r.lastBlockSeen >= AsI64(ts[i].0.blockNumber)
      {
        if i < n {
          assert ts[..n][i] == ts[i];
          assert prev.lastBlockSeen >= AsI64(ts[..n][i].0.blockNumber);
        } else {
          assert i == n;
        }
      }
      if r.lastBlockSeen != prev.lastBlockSeen {
        assert r.lastBlockSeen == AsI64(ts[n].0.blockNumber);
      } else if prev.lastBlockSeen != s.lastBlockSeen {
        var i :| 0 <= i < n && prev.lastBlockSeen == AsI64(ts[..n][i].0.blockNumber);
        assert ts[..n][i] == ts[i];
      }
    }
  }

  lemma {:induction false} ApplyAllKeepsConsistent(s: Tables, exchangeId: int, ts: seq<(Transfer, bool)>)
    requires Consistent(s)
    ensures Consistent(ApplyAll(s, exchangeId, ts))
  {
    if ts != [] {
      var n := |ts| - 1;
      ApplyAllKeepsConsistent(s, exchangeId, ts[..n]);
      ApplyKeepsConsistent(ApplyAll(s, exchangeId, ts[..n]), exchangeId, ts[n].0, ts[n].1);
    }
  }

  // -----------------------------------------------------------------------
  // The store

  class Db {
    var exchangeAddresses: set<(int, Address)>
    var netFlows: map<NetflowKey, NetflowRow>
    var blocks: map<int, BlockRow>
    var transfers: map<TransferKey, Transfer>
    var lastBlockSeen: int

    /** The whole database as a value. */
    function State(): Tables
      reads this
    {
      Tables(exchangeAddresses, netFlows, blocks, transfers, lastBlockSeen)
    }

    /** An opened and migrated database holding `initial`: the empty
        tables on a first start, the previous run's tables on a restart. */
    constructor (initial: Tables)
      ensures State() == initial
    {
      exchangeAddresses := initial.exchangeAddresses;
      netFlows := initial.netFlows;
      blocks := initial.blocks;
      transfers := initial.transfers;
      lastBlockSeen := initial.lastBlockSeen;
    }

    /** Transaction rollback: put back the tables saved at `begin`. */
    method Rollback(saved: Tables)
      modifies this
      ensures State() == saved
    {
      exchangeAddresses := saved.exchangeAddresses;
      netFlows := saved.netFlows;
      blocks := saved.blocks;
      transfers := saved.transfers;
      lastBlockSeen := saved.lastBlockSeen;
    }

    method UpsertExchangeAddresses(exchangeId: int, addrs: seq<Address>, fault: Fault) returns (r: Outcome<DbError>)
      modifies this
      ensures r.Pass? <==> !Fails(fault, |addrs| + 2)
      ensures r.Fail? ==> r.error == CallFailed(fault.call)
      ensures State() == if r.Pass? then UpsertAddresses(old(State()), exchangeId, addrs) else old(State())
    {
      if fault == FailAt(0) {
        return Fail(CallFailed(0));
      }
      var saved := State();
      var i := 0;
      while i < |addrs|
        invariant 0 <= i <= |addrs|
        invariant !Fails(fault, i + 1)
        invariant saved == old(State())
        invariant State() == UpsertAddresses(saved, exchangeId, addrs[..i])
      {
        if fault == FailAt(i + 1) {
          Rollback(saved);
          return Fail(CallFailed(i + 1));
        }
        exchangeAddresses := exchangeAddresses + {(exchangeId, addrs[i])};
        assert AddressRows(exchangeId, addrs[..i + 1]) == AddressRows(exchangeId, addrs[..i]) + {(exchangeId, addrs[i])} by {
          assert addrs[..i + 1] == addrs[..i] + [addrs[i]];
        }
        i := i + 1;
      }
      assert addrs[..i] == addrs;
      if fault == FailAt(|addrs| + 1) {
        Rollback(saved);
        return Fail(CallFailed(|addrs| + 1));
      }
      return Pass;
    }

    method EnsureNetflowRow(exchangeId: int, token: Address, symbol: string, decimals: U8, fault: Fault) returns (r: Outcome<DbError>)
      modifies this
      ensures r.Pass? <==> !Fails(fault, 1)
      ensures r.Fail? ==> r.error == CallFailed(fault.call)
      ensures State() == if r.Pass? then EnsureRow(old(State()), exchangeId, token, symbol, decimals) else old(State())
    {
      if fault == FailAt(0) {
        return Fail(CallFailed(0));
      }
      if (exchangeId, token) !in netFlows {
        netFlows := netFlows[(exchangeId, token) := ZeroRow(symbol, decimals)];
      }
      return Pass;
    }

    method InsertBlock(t: Transfer)
      modifies this
      ensures State() == RecordBlock(old(State()), t)
    {
      var bn := AsI64(t.blockNumber);
      if bn !in blocks {
        blocks := blocks[bn := BlockRow(t.txHash, [], AsI64(t.timestamp))];
      }
    }

    method InsertTransfer(t: Transfer)
      modifies this
      ensures State() == RecordTransfer(old(State()), t)
    {
      if KeyOf(t) !in transfers {
        transfers := transfers[KeyOf(t) := t];
      }
    }

    method UpdateNetflow(exchangeId: int, t: Transfer, isInflow: bool)
      modifies this
      ensures State() == UpdateTotals(old(State()), exchangeId, t, isInflow)
    {
      var key := (exchangeId, t.token);
      var bn := AsI64(t.blockNumber);
      if key in netFlows {
        var row := netFlows[key];
        if isInflow {
          netFlows := netFlows[key := row.(cumulativeIn := row.cumulativeIn + t.amount,
                                           cumulativeNet := row.cumulativeIn + t.amount - row.cumulativeOut,
                                           lastUpdatedBn := bn)];
        } else {
          netFlows := netFlows[key := row.(cumulativeOut := row.cumulativeOut + t.amount,
                                           cumulativeNet := row.cumulativeIn - (row.cumulativeOut + t.amount),
                                           lastUpdatedBn := bn)];
        }
      }
    }

    method UpdateCheckpoint(blockNumber: int)
      modifies this
      ensures State() == RaiseCheckpoint(old(State()), blockNumber)
    {
      lastBlockSeen := Max(lastBlockSeen, blockNumber);
    }

    /** Record the block and the transfer (each insert-if-absent), update the
        totals of the (exchange, token) row and raise the checkpoint, all in
        one transaction. The totals update does not depend on whether the
        transfer was new. */
    method InsertTransferAndUpdateNetflow(exchangeId: int, t: Transfer, isInflow: bool, fault: Fault) returns (r: Outcome<DbError>)
      modifies this
      ensures r.Pass? <==> !Fails(fault, ApplyCalls)
      ensures r.Fail? ==> r.error == CallFailed(fault.call)
      ensures State() == if r.Pass? then ApplyTransfer(old(State()), exchangeId, t, isInflow) else old(State())
    {
      if fault == FailAt(0) {
        return Fail(CallFailed(0));
      }
      var saved := State();
      if fault == FailAt(1) {
        Rollback(saved);
        return Fail(CallFailed(1));
      }
      InsertBlock(t);
      if fault == FailAt(2) {
        Rollback(saved);
        return Fail(CallFailed(2));
      }
      InsertTransfer(t);
      if fault == FailAt(3) {
        Rollback(saved);
        return Fail(CallFailed(3));
      }
      UpdateNetflow(exchangeId, t, isInflow);
      if fault == FailAt(4) {
        Rollback(saved);
        return Fail(CallFailed(4));
      }
      UpdateCheckpoint(AsI64(t.blockNumber));
      if fault == FailAt(5) {
        Rollback(saved);
        return Fail(CallFailed(5));
      }
      return Pass;
    }

    method FetchNetflow(exchangeId: int, token: Address) returns (r: Option<Totals>)
      ensures r == Fetch(State(), exchangeId, token)
    {
      var key := (exchangeId, token);
      if key in netFlows {
        var row := netFlows[key];
        r := Some(Totals(row.cumulativeIn, row.cumulativeOut, row.cumulativeNet, row.lastUpdatedBn));
      } else {
        r := None;
      }
    }
  }
}
