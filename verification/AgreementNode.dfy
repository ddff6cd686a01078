/**
  The handlers of lib/net as they run on one node, over the variables they share, against the step functions of
  the protocol.
*/
module AgreementNode {
  import opened Agreement

  /** Each hash of a set that is known, once. */
  ghost predicate Lists(tx: seq<string>, hashes: set<string>, known: set<string>) {
    && (forall j, k :: 0 <= j < k < |tx| ==> tx[j] != tx[k])
    && (forall h :: h in tx <==> h in hashes && h in known)
  }

  /** The hashes in all entries, put into one set. */
  method CommonHashes(ts: seq<TransHash>) returns (common: set<string>)
    ensures common == Union(ts)
  {
    common := {};
    for i := 0 to |ts|
      invariant common == Union(ts[..i])
    {
      var hashes := ts[i].hashes;
      for j := 0 to |hashes|
        invariant common == Union(ts[..i]) + SetOf(hashes[..j])
      {
        common := common + {hashes[j]};
      }
      assert hashes[..|hashes|] == hashes && ts[..i + 1][..i] == ts[..i];
    }
    assert ts[..|ts|] == ts;
  }

  /** How many votes are positive, as a set of places. */
  function Positive(votes: seq<Vote>): nat {
    |set i | 0 <= i < |votes| && votes[i].vote|
  }

  function PositiveVerdicts(verdicts: seq<ReVote>): nat {
    |set i | 0 <= i < |verdicts| && verdicts[i].verdict|
  }

  lemma {:induction false} CountIsPositive(votes: seq<Vote>)
    ensures CountVotes(votes) == Positive(votes)
  {
    if votes != [] {
      var n := |votes| - 1;
      CountIsPositive(votes[..n]);
      var all, before := set i | 0 <= i < |votes| && votes[i].vote, set i | 0 <= i < n && votes[..n][i].vote;
      assert all == if votes[n].vote then before + {n} else before;
    }
  }

  lemma {:induction false} CountIsPositiveVerdicts(verdicts: seq<ReVote>)
    ensures CountVerdicts(verdicts) == PositiveVerdicts(verdicts)
  {
    if verdicts != [] {
      var n := |verdicts| - 1;
      CountIsPositiveVerdicts(verdicts[..n]);
      var all := set i | 0 <= i < |verdicts| && verdicts[i].verdict;
      var before := set i | 0 <= i < n && verdicts[..n][i].verdict;
      assert all == if verdicts[n].verdict then before + {n} else before;
    }
  }

  /** The loops over a collection that is complete. */
  method CountPositive(votes: seq<Vote>) returns (count: nat)
    ensures count == CountVotes(votes) == Positive(votes)
  {
    count := 0;
    var i := 0;
    while i < |votes|
      invariant 0 <= i <= |votes| && count == CountVotes(votes[..i])
    {
      assert votes[..i + 1][..i] == votes[..i];
      if votes[i].vote {
        count := count + 1;
      }
      i := i + 1;
    }
    assert votes[..i] == votes;
    CountIsPositive(votes);
  }

  method CountPositiveVerdicts(votes: seq<ReVote>) returns (count: nat)
    ensures count == CountVerdicts(votes) == PositiveVerdicts(votes)
  {
    count := 0;
    var i := 0;
    while i < |votes|
      invariant 0 <= i <= |votes| && count == CountVerdicts(votes[..i])
    {
      assert votes[..i + 1][..i] == votes[..i];
      if votes[i].verdict {
        count := count + 1;
      }
      i := i + 1;
    }
    assert votes[..i] == votes;
    CountIsPositiveVerdicts(votes);
  }

  /** The entries that a collection has under a key. */
  function Entries<K, V>(m: map<K, seq<V>>, key: K): seq<V> {
    if key in m then m[key] else []
  }

  class Server {
    const nodes: nat
    const isSelfLeader: bool

    var currBlock: Block
    var tmpBlock: Block
    var times: nat
    var transinblock: nat
    var blockchains: seq<Block>
    var commonTransMap: map<Turn, seq<TransHash>>
    var hashTranMap: set<string>     // the transactions that have been seen here, by their hashes
    var commonTransList: seq<string> // those of the block to come
    var round1Map: map<Key, seq<Vote>>
    var round2Map: map<Key, seq<ReVote>>

    constructor (nodes: nat, leads: bool, genesis: Block)
      ensures this.nodes == nodes && isSelfLeader == leads
      ensures State() == Node(leads, genesis, NO_BLOCK, Turn(0, FIRST), [genesis], map[], map[], map[])
    {
      this.nodes, isSelfLeader := nodes, leads;
      currBlock, tmpBlock := genesis, NO_BLOCK;
      times, transinblock := 0, FIRST;
      blockchains := [genesis];
      commonTransMap, round1Map, round2Map := map[], map[], map[];
      hashTranMap, commonTransList := {}, [];
    }

    function State(): Node
      reads this
    {
      Node(isSelfLeader, currBlock, tmpBlock, Turn(times, transinblock), blockchains, commonTransMap, round1Map,
        round2Map)
    }

    /**
      The announcement of one node has come in. The one that completes the collection, if it is for the block that is
      to come, leads to the list of its transactions, and proposes tells whether the leader's broadcast follows.
    */
    method ReceiveTran(t: TransHash) returns (proposes: bool)
      modifies this`commonTransMap, this`commonTransList
      ensures (State(), proposes) == Agreement.ReceiveTran(old(State()), t, nodes)
      ensures
        var turn := Turn(times, transinblock);
        if Complete(old(commonTransMap), turn, nodes) && t.blockHash == currBlock.hash
        then Lists(commonTransList, Union(commonTransMap[turn]), hashTranMap)
        else commonTransList == old(commonTransList)
      ensures
        var turn := Turn(times, transinblock);
        var ts := Entries(old(commonTransMap), turn) + [t];
        && commonTransMap == old(commonTransMap)[turn := ts]
        && proposes == (turn in old(commonTransMap) && |ts| == nodes && t.blockHash == currBlock.hash && isSelfLeader)
      ensures proposes ==> forall b: Block :: b.tx == commonTransList ==> Gathered(b, State())
    {
      var key := Turn(times, transinblock);
      proposes := false;
      if key in commonTransMap {
        var ts := commonTransMap[key] + [t];
        commonTransMap := commonTransMap[key := ts];
        if |ts| == nodes {
          var common := CommonHashes(ts);
          if t.blockHash != currBlock.hash {
            return;
          }
          GenerateFromCommonTx(common);
          proposes := isSelfLeader;
        }
      } else {
        assert [] + [t] == [t];
        commonTransMap := commonTransMap[key := [t]];
      }
    }

    /** The transactions of a set of hashes, in any order, as far as they are known here. */
    method GenerateFromCommonTx(common: set<string>)
      modifies this`commonTransList
      ensures Lists(commonTransList, common, hashTranMap)
    {
      var trans, rest := [], common;
      while rest != {}
        invariant rest <= common && Lists(trans, common - rest, hashTranMap)
      {
        var h :| h in rest;
        rest := rest - {h};
        if h in hashTranMap {
          trans := trans + [h];
        }
      }
      commonTransList := trans;
    }

    method Checkblock(b: Block) returns (ok: bool)
      ensures ok == CheckBlock(State(), b) == (b.prevHash == currBlock.hash && b.hash != tmpBlock.hash)
    {
      if b.prevHash != currBlock.hash {
        return false;
      }
      if tmpBlock.hash == b.hash {
        return false;
      }
      return true;
    }

    method ReceiveBlock(b: Block) returns (out: seq<Message>)
      modifies this`tmpBlock
      ensures (State(), out) == Agreement.ReceiveBlock(old(State()), b)
      ensures
        if b.prevHash == currBlock.hash && b.hash != old(tmpBlock).hash
        then tmpBlock == b && out == [VoteMsg(b.hash, b.signature == "Signature")]
        else tmpBlock == old(tmpBlock) && out == []
    {
      var ok := Checkblock(b);
      if !ok {
        return [];
      }
      var vote := false;
      if b.prevHash == currBlock.hash && b.signature == "Signature" {
        vote := true;
      }
      tmpBlock := b;
      return [VoteMsg(b.hash, vote)];
    }

    /** A vote of the first round. */
    method Vote1(v: Vote) returns (out: seq<Message>)
      modifies this`round1Map
      ensures (State(), out) == ReceiveVote(old(State()), v, nodes)
      ensures
        var key := Key(Turn(times, transinblock), v.hash);
        var votes := Entries(old(round1Map), key) + [v];
        && round1Map == old(round1Map)[key := votes]
        && out == if key in old(round1Map) && |votes| == nodes
                  then [ReVoteMsg(votes, v.hash, 4 * Positive(votes) > 3 * nodes)] else []
    {
      hide CountVotes;
      hide Positive;
      var key := Key(Turn(times, transinblock), v.hash);
      out := [];
      if key in round1Map {
        var votes := round1Map[key] + [v];
        round1Map := round1Map[key := votes];
        if |votes| == nodes {
          var count := CountPositive(votes);
          var re := false;
          if 4 * count > 3 * nodes {
            re := true;
          }
          out := [ReVoteMsg(votes, v.hash, re)];
        }
      } else {
        assert [] + [v] == [v];
        round1Map := round1Map[key := [v]];
      }
    }

    /** Nothing is to be stored for this hash. */
    method Checks(hash: string) returns (finished: bool)
      ensures finished == Finished(State(), hash) == (tmpBlock.hash != hash || tmpBlock.hash == currBlock.hash)
    {
      if tmpBlock.hash != hash {
        return true;
      }
      if tmpBlock.hash == currBlock.hash {
        return true;
      }
      return false;
    }

    method CheckAndStore(hash: string)
      modifies this`blockchains, this`currBlock, this`times, this`transinblock
      ensures State() == Agreement.CheckAndStore(old(State()), hash)
      ensures
        if tmpBlock.hash == hash && tmpBlock.hash != old(currBlock).hash then
          && blockchains == old(blockchains) + [tmpBlock] && currBlock == tmpBlock
          && times == (if old(times) + 1 < 10 then old(times) + 1 else 0)
          && transinblock == (if old(times) + 1 < 10 then old(transinblock) else old(transinblock) + 200)
        else
          && blockchains == old(blockchains) && currBlock == old(currBlock)
          && times == old(times) && transinblock == old(transinblock)
    {
      if tmpBlock.hash != hash {
        return;
      }
      if tmpBlock.hash == currBlock.hash {
        return;
      }
      blockchains := blockchains + [tmpBlock];
      currBlock := tmpBlock;
      if times + 1 < ROUNDS {
        times := times + 1;
      } else {
        times := 0;
        transinblock := transinblock + STEP;
      }
    }

    /** A verdict of the second round. */
    method Vote2(rv: ReVote)
      modifies this`round2Map, this`blockchains, this`currBlock, this`times, this`transinblock
      ensures State() == ReceiveReVote(old(State()), rv, nodes)
      ensures
        var key := Key(Turn(old(times), old(transinblock)), rv.hash);
        var verdicts := Entries(old(round2Map), key) + [rv];
        && round2Map == old(round2Map)[key := verdicts]
        && if key in old(round2Map) && |verdicts| == nodes && 4 * PositiveVerdicts(verdicts) > 3 * nodes &&
              tmpBlock.hash == rv.hash && tmpBlock.hash != old(currBlock).hash then
             && blockchains == old(blockchains) + [tmpBlock] && currBlock == tmpBlock
             && times == (if old(times) + 1 < 10 then old(times) + 1 else 0)
             && transinblock == (if old(times) + 1 < 10 then old(transinblock) else old(transinblock) + 200)
           else
             && blockchains == old(blockchains) && currBlock == old(currBlock)
             && times == old(times) && transinblock == old(transinblock)
    {
      hide CountVerdicts;
      hide PositiveVerdicts;
      var key := Key(Turn(times, transinblock), rv.hash);
      if key in round2Map {
        var votes := round2Map[key] + [rv];
        round2Map := round2Map[key := votes];
        if |votes| == nodes {
          var finished := Checks(rv.hash);
          if finished {
            return;
          }
          var count := CountPositiveVerdicts(votes);
          if 4 * count > 3 * nodes {
            CheckAndStore(rv.hash);
          }
        }
      } else {
        assert [] + [rv] == [rv];
        round2Map := round2Map[key := [rv]];
      }
    }
  }
}
