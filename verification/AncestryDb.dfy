/**
 The read-only database the ancestry tool looks things up in, and the lookups without any cache.
 */
module AncestryDb {
  import opened Wrappers

  type Hash = nat
  type Key = nat
  type uint64 = n: nat | n < 0x1_0000_0000_0000_0000

  /** An output as ring members name it: an amount, and an index among the outputs of that amount. */
  datatype Output = Output(amount: uint64, offset: uint64)

  datatype TxIn = Gen | ToKey(amount: uint64, keyOffsets: seq<uint64>) | OtherIn

  datatype TxOut = KeyOut(key: Key) | OtherOut

  datatype Transaction = Transaction(vin: seq<TxIn>, vout: seq<TxOut>)

  datatype Block = Block(minerTx: Transaction, minerHash: Hash, txHashes: seq<Hash>)

  datatype OutputData = OutputData(pubkey: Key, height: nat)

  /** A block, transaction or output that is missing, or whose blob does not parse, has no entry. */
  datatype Db = Db(height: nat, blocks: map<nat, Block>, txs: map<Hash, Transaction>, outputs: map<Output, OutputData>)

  /** The members of one input's ring, by absolute offset. */
  datatype Ring = Ring(amount: uint64, offsets: seq<uint64>)

  datatype TxData = TxData(vin: seq<Ring>, vout: seq<Key>, coinbase: bool)

  // ----- transactions

  /** Running sums, modulo 2^64. */
  function AbsoluteOffsets(off: seq<uint64>): (abs: seq<uint64>)
    ensures |abs| == |off|
  {
    if off == [] then [] else
    var rest := AbsoluteOffsets(off[..|off| - 1]);
    var previous := if rest == [] then 0 else rest[|rest| - 1];
    rest + [(off[|off| - 1] as int + previous) % UINT64_RANGE]
  }

  const UINT64_RANGE := 0x1_0000_0000_0000_0000

  /** The sum of the first n offsets, over the integers. */
  function SumTo(off: seq<uint64>, n: nat): nat
    requires n <= |off|
  {
    if n == 0 then 0 else SumTo(off, n - 1) + off[n - 1]
  }

  lemma {:induction false} SumOfPrefix(off: seq<uint64>, m: nat, n: nat)
    requires n <= m <= |off|
    ensures SumTo(off[..m], n) == SumTo(off, n)
  {
    if n > 0 {
      SumOfPrefix(off, m, n - 1);
    }
  }

  /** An absolute offset is the sum of the relative ones up to it, modulo 2^64. */
  lemma {:induction false} OffsetIsSum(off: seq<uint64>, i: nat)
    requires i < |off|
    ensures AbsoluteOffsets(off)[i] as int == SumTo(off, i + 1) % UINT64_RANGE
  {
    var m := |off| - 1;
    var before := off[..m];
    if i < m {
      OffsetIsSum(before, i);
      SumOfPrefix(off, m, i + 1);
    } else if m > 0 {
      OffsetIsSum(before, m - 1);
      SumOfPrefix(off, m, m);
      SumModulo(SumTo(off, m), off[m]);
    }
  }

  lemma SumModulo(a: nat, b: nat)
    ensures (b + a % UINT64_RANGE) % UINT64_RANGE == (a + b) % UINT64_RANGE
  {
  }

  /** The relative offsets are the differences, modulo 2^64, so none is lost. */
  lemma OffsetsRecovered(off: seq<uint64>, i: nat)
    requires i < |off|
    ensures i == 0 ==> AbsoluteOffsets(off)[0] == off[0]
    ensures i > 0 ==> off[i] as int == (AbsoluteOffsets(off)[i] - AbsoluteOffsets(off)[i - 1]) % UINT64_RANGE
  {
    hide AbsoluteOffsets;
    OffsetIsSum(off, i);
    if i > 0 {
      OffsetIsSum(off, i - 1);
      DifferenceModulo(SumTo(off, i), off[i]);
    } else {
      assert SumTo(off, 0) == 0;
    }
  }

  lemma DifferenceModulo(a: nat, b: nat)
    requires b < UINT64_RANGE
    ensures ((a + b) % UINT64_RANGE - a % UINT64_RANGE) % UINT64_RANGE == b
  {
  }

  predicate IsCoinbase(tx: Transaction) {
    |tx.vin| == 1 && tx.vin[0].Gen?
  }

  /** The transaction has only inputs and outputs of the kinds the tool can read. */
  predicate Readable(tx: Transaction) {
    && (IsCoinbase(tx) || forall i :: 0 <= i < |tx.vin| ==> tx.vin[i].ToKey?)
    && forall i :: 0 <= i < |tx.vout| ==> tx.vout[i].KeyOut?
  }

  function Rings(vin: seq<TxIn>): (rings: seq<Ring>)
    requires forall i :: 0 <= i < |vin| ==> vin[i].ToKey?
    ensures |rings| == |vin|
  {
    seq(|vin|, i requires 0 <= i < |vin| => Ring(vin[i].amount, AbsoluteOffsets(vin[i].keyOffsets)))
  }

  function Keys(vout: seq<TxOut>): (keys: seq<Key>)
    requires forall i :: 0 <= i < |vout| ==> vout[i].KeyOut?
    ensures |keys| == |vout|
  {
    seq(|vout|, i requires 0 <= i < |vout| => vout[i].key)
  }

  function ToTxData(tx: Transaction): Option<TxData> {
    if !Readable(tx) then None
    else Some(TxData(if IsCoinbase(tx) then [] else Rings(tx.vin), Keys(tx.vout), IsCoinbase(tx)))
  }

  method RelativeToAbsolute(off: seq<uint64>) returns (res: seq<uint64>)
    ensures res == AbsoluteOffsets(off)
    ensures |res| == |off| && forall i :: 0 <= i < |off| ==> res[i] as int == SumTo(off, i + 1) % UINT64_RANGE
  {
    res := off;
    var i := 1;
    if |off| > 0 {
      assert off[..1] == [off[0]] && off[..1][..0] == [];
      assert AbsoluteOffsets(off[..1]) == [off[0]];
    }
    while i < |res|
      invariant |res| == |off| && 1 <= i && (|off| > 0 ==> i <= |off|)
      invariant |off| > 0 ==> res[..i] == AbsoluteOffsets(off[..i]) && res[i..] == off[i..]
    {
      assert off[..i + 1][..i] == off[..i];
      assert res[i] == off[i] && res[i - 1] == res[..i][i - 1];
      var sum := (res[i] as int + res[i - 1]) % UINT64_RANGE;
      res := res[i := sum];
      i := i + 1;
    }
    assert |off| > 0 ==> off[..i] == off && res[..i] == res;
    forall k | 0 <= k < |off|
      ensures res[k] as int == SumTo(off, k + 1) % UINT64_RANGE
    {
      OffsetIsSum(off, k);
    }
  }

  /** The constructor of tx_data_t; None stands for its exception. */
  method TxDataOf(tx: Transaction) returns (r: Option<TxData>)
    ensures r == ToTxData(tx)
  {
    var coinbase := |tx.vin| == 1 && tx.vin[0].Gen?;
    var vin: seq<Ring> := [];
    if !coinbase {
      var ring := 0;
      while ring < |tx.vin|
        invariant 0 <= ring <= |tx.vin|
        invariant forall i :: 0 <= i < ring ==> tx.vin[i].ToKey?
        invariant vin == Rings(tx.vin[..ring])
      {
        if tx.vin[ring].ToKey? {
          var offsets := RelativeToAbsolute(tx.vin[ring].keyOffsets);
          vin := vin + [Ring(tx.vin[ring].amount, offsets)];
        } else {
          return None;
        }
        ring := ring + 1;
      }
      assert tx.vin[..ring] == tx.vin;
    }
    var vout: seq<Key> := [];
    var out := 0;
    while out < |tx.vout|
      invariant 0 <= out <= |tx.vout|
      invariant forall i :: 0 <= i < out ==> tx.vout[i].KeyOut?
      invariant vout == Keys(tx.vout[..out])
    {
      if tx.vout[out].KeyOut? {
        vout := vout + [tx.vout[out].key];
      } else {
        return None;
      }
      out := out + 1;
    }
    assert tx.vout[..out] == tx.vout;
    r := Some(TxData(vin, vout, coinbase));
  }

  // ----- lookups

  function GetBlock(db: Db, height: nat): Option<Block> {
    if height in db.blocks then Some(db.blocks[height]) else None
  }

  function GetTx(db: Db, txid: Hash): Option<TxData> {
    if txid in db.txs then ToTxData(db.txs[txid]) else None
  }

  datatype Search = Found | Absent | Unreadable

  /** Looks for a key among the outputs of a miner transaction, up to the first match or output of
      another kind. */
  function SearchOutputs(vout: seq<TxOut>, key: Key): Search {
    if vout == [] then Absent
    else if vout[0].OtherOut? then Unreadable
    else if vout[0].key == key then Found
    else SearchOutputs(vout[1..], key)
  }

  /** The first of the transactions with an output to the key; None also when one cannot be read. */
  function SearchTxs(db: Db, hashes: seq<Hash>, key: Key): Option<Hash> {
    if hashes == [] then None else
    match GetTx(db, hashes[0])
    case None => None
    case Some(tx) => if key in tx.vout then Some(hashes[0]) else SearchTxs(db, hashes[1..], key)
  }

  /** The transaction that created an output: by its key, in the block the database gives for it. */
  function GetOutputTxid(db: Db, o: Output): Option<Hash> {
    if o !in db.outputs then None else
    var od := db.outputs[o];
    match GetBlock(db, od.height)
    case None => None
    case Some(b) =>
      match SearchOutputs(b.minerTx.vout, od.pubkey)
      case Found => Some(b.minerHash)
      case Unreadable => None
      case Absent => SearchTxs(db, b.txHashes, od.pubkey)
  }

  // ----- what the search by key means

  /** A transaction of the block pays to the key; the miner transaction counts under its hash. */
  predicate PaysTo(db: Db, b: Block, t: Hash, key: Key) {
    (t == b.minerHash && KeyOut(key) in b.minerTx.vout) ||
    (t in b.txHashes && GetTx(db, t).Some? && key in GetTx(db, t).value.vout)
  }

  lemma {:induction false} SearchOutputsFinds(vout: seq<TxOut>, key: Key)
    ensures SearchOutputs(vout, key) == Found ==> KeyOut(key) in vout
    ensures SearchOutputs(vout, key) == Absent ==> KeyOut(key) !in vout
  {
    if vout != [] {
      SearchOutputsFinds(vout[1..], key);
    }
  }

  lemma {:induction false} SearchTxsFinds(db: Db, hashes: seq<Hash>, key: Key)
    ensures SearchTxs(db, hashes, key).Some? ==>
              var t := SearchTxs(db, hashes, key).value;
              t in hashes && GetTx(db, t).Some? && key in GetTx(db, t).value.vout
    ensures (forall t :: t in hashes ==> GetTx(db, t).Some?) && SearchTxs(db, hashes, key) == None ==>
              forall t :: t in hashes ==> key !in GetTx(db, t).value.vout
  {
    if hashes != [] {
      SearchTxsFinds(db, hashes[1..], key);
    }
  }

  /** When an output's key is paid to by one transaction of its block only, the lookup returns that
      transaction and no other. */
  lemma CreatorIsPayer(db: Db, o: Output, t: Hash)
    requires o in db.outputs && db.outputs[o].height in db.blocks
    requires var b := db.blocks[db.outputs[o].height];
             && (forall i :: 0 <= i < |b.minerTx.vout| ==> b.minerTx.vout[i].KeyOut?)
             && (forall h :: h in b.txHashes ==> GetTx(db, h).Some?)
             && (forall h, h' ::
                 PaysTo(db, b, h, db.outputs[o].pubkey) && PaysTo(db, b, h', db.outputs[o].pubkey) ==> h == h')
    ensures GetOutputTxid(db, o) == Some(t) <==> PaysTo(db, db.blocks[db.outputs[o].height], t, db.outputs[o].pubkey)
  {
    var od := db.outputs[o];
    var b := db.blocks[od.height];
    SearchOutputsFinds(b.minerTx.vout, od.pubkey);
    SearchTxsFinds(db, b.txHashes, od.pubkey);
    AllKeysReadable(b.minerTx.vout, od.pubkey);
    if GetOutputTxid(db, o).Some? {
      assert PaysTo(db, b, GetOutputTxid(db, o).value, od.pubkey);
    }
  }

  /** The output's key is among the first of the outputs, and those up to it can be read. */
  ghost predicate ReadablyPaid(vout: seq<TxOut>, key: Key) {
    exists i :: 0 <= i < |vout| && vout[i] == KeyOut(key) && forall j :: 0 <= j < i ==> vout[j].KeyOut?
  }

  lemma {:induction false} SearchOutputsIff(vout: seq<TxOut>, key: Key)
    ensures SearchOutputs(vout, key) == Found <==> ReadablyPaid(vout, key)
    ensures SearchOutputs(vout, key) == Absent
       <==> forall i :: 0 <= i < |vout| ==> vout[i].KeyOut? && vout[i].key != key
  {
    if vout != [] {
      var rest := vout[1..];
      SearchOutputsIff(rest, key);
      assert forall i :: 0 < i < |vout| ==> vout[i] == rest[i - 1];
      if ReadablyPaid(rest, key) && vout[0].KeyOut? {
        var i :| 0 <= i < |rest| && rest[i] == KeyOut(key) && forall j :: 0 <= j < i ==> rest[j].KeyOut?;
        assert vout[i + 1] == KeyOut(key);
      }
      if ReadablyPaid(vout, key) && vout[0] != KeyOut(key) {
        var i :| 0 <= i < |vout| && vout[i] == KeyOut(key) && forall j :: 0 <= j < i ==> vout[j].KeyOut?;
        assert rest[i - 1] == KeyOut(key);
      }
    }
  }

  /** A transaction of the list that has an output to the key, the first of them, and all up to it can be read. */
  ghost predicate FirstPayer(db: Db, hashes: seq<Hash>, key: Key, k: int) {
    && 0 <= k < |hashes| && GetTx(db, hashes[k]).Some? && key in GetTx(db, hashes[k]).value.vout
    && forall m :: 0 <= m < k ==> GetTx(db, hashes[m]).Some? && key !in GetTx(db, hashes[m]).value.vout
  }

  lemma {:induction false} SearchTxsIff(db: Db, hashes: seq<Hash>, key: Key, t: Hash)
    ensures SearchTxs(db, hashes, key) == Some(t) <==> exists k :: FirstPayer(db, hashes, key, k) && hashes[k] == t
  {
    hide GetTx;
    if hashes != [] {
      var rest := hashes[1..];
      SearchTxsIff(db, rest, key, t);
      assert forall i :: 0 < i < |hashes| ==> hashes[i] == rest[i - 1];
      if GetTx(db, hashes[0]).Some? && key in GetTx(db, hashes[0]).value.vout {
        assert FirstPayer(db, hashes, key, 0);
      } else {
        if k :| FirstPayer(db, rest, key, k) && rest[k] == t && GetTx(db, hashes[0]).Some? {
          assert FirstPayer(db, hashes, key, k + 1);
        }
        if k :| FirstPayer(db, hashes, key, k) && hashes[k] == t {
          assert k > 0 && FirstPayer(db, rest, key, k - 1);
        }
      }
    }
  }

  /** The lookup returns the first transaction of the block, the miner transaction before the others, that
      pays to the output's key, if everything up to that can be read. */
  lemma CreatorIsFirstPayer(db: Db, o: Output, t: Hash)
    requires o in db.outputs && db.outputs[o].height in db.blocks
    ensures var key, b := db.outputs[o].pubkey, db.blocks[db.outputs[o].height];
            GetOutputTxid(db, o) == Some(t) <==>
              (ReadablyPaid(b.minerTx.vout, key) && t == b.minerHash) ||
              ((forall i :: 0 <= i < |b.minerTx.vout| ==> b.minerTx.vout[i].KeyOut? && b.minerTx.vout[i].key != key) &&
               exists k :: FirstPayer(db, b.txHashes, key, k) && b.txHashes[k] == t)
  {
    hide FirstPayer, ReadablyPaid, GetTx, SearchOutputs, SearchTxs;
    var key, b := db.outputs[o].pubkey, db.blocks[db.outputs[o].height];
    SearchOutputsIff(b.minerTx.vout, key);
    SearchTxsIff(db, b.txHashes, key, t);
  }

  lemma {:induction false} AllKeysReadable(vout: seq<TxOut>, key: Key)
    requires forall i :: 0 <= i < |vout| ==> vout[i].KeyOut?
    ensures SearchOutputs(vout, key) != Unreadable
  {
    if vout != [] {
      AllKeysReadable(vout[1..], key);
    }
  }
}
