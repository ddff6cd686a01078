/**
  The block agreement protocol of lib/net as a state machine: transaction hashes are collected, the leader proposes a
  block, two rounds of votes follow, and the block is stored. Each handler, with the goroutine it
  starts, is one atomic step; messages may be lost or overtake each other.
*/
module Agreement {

  // ---------------------------------------------------------------------------------------
  // Messages and the state of one node
  // ---------------------------------------------------------------------------------------

  datatype Block = Block(index: nat, timestamp: string, prevHash: string, merkle: string, signature: string,
                         hash: string, tx: seq<string>)

  /** The block that Go's zero value is: nothing received yet. */
  const NO_BLOCK := Block(0, "", "", "", "", "", [])

  /** The id of a vote or verdict is that of the broadcast that carried it. */
  datatype Vote = Vote(id: nat, hash: string, vote: bool)

  datatype ReVote = ReVote(id: nat, votes: seq<Vote>, hash: string, verdict: bool)

  datatype Message =
    | TransMsg(blockHash: string, hashes: seq<string>)
    | BlockMsg(block: Block)
    | VoteMsg(hash: string, vote: bool)
    | ReVoteMsg(votes: seq<Vote>, hash: string, verdict: bool)

  /** The transaction hashes that a node has announced, for the block that is to follow its current one. */
  datatype TransHash = TransHash(blockHash: string, hashes: seq<string>)

  const ROUNDS := 10
  const FIRST := 4000 // transactions in a block of the first big round
  const STEP := 200   // change from one big round to the next

  /** The part of the keys that says which block the collected messages are for. */
  datatype Turn = Turn(times: nat, transinblock: nat)

  datatype Key = Key(turn: Turn, hash: string)

  datatype Node = Node(
    leader: bool,
    curr: Block,
    tmp: Block,
    turn: Turn,
    chain: seq<Block>,                // the blocks handed to common.Blockchains
    trans: map<Turn, seq<TransHash>>,
    round1: map<Key, seq<Vote>>,
    round2: map<Key, seq<ReVote>>)

  function Append<K, V>(m: map<K, seq<V>>, k: K, v: V): map<K, seq<V>> {
    m[k := (if k in m then m[k] else []) + [v]]
  }

  /** The gate behind which a collection is acted on: the entry that makes it complete, other than the first. */
  predicate Complete<K, V>(m: map<K, seq<V>>, k: K, nodes: nat) {
    k in m && |m[k]| + 1 == nodes
  }

  function CountVotes(votes: seq<Vote>): nat {
    if votes == [] then 0
    else CountVotes(votes[..|votes| - 1]) + if votes[|votes| - 1].vote then 1 else 0
  }

  function CountVerdicts(verdicts: seq<ReVote>): nat {
    if verdicts == [] then 0
    else CountVerdicts(verdicts[..|verdicts| - 1]) + if verdicts[|verdicts| - 1].verdict then 1 else 0
  }

  /** `float64(count) > float64(Nodes)*0.75` */
  predicate MoreThanThreeQuarters(count: nat, nodes: nat) {
    4 * count > 3 * nodes
  }

  // ---------------------------------------------------------------------------------------
  // The handlers
  // ---------------------------------------------------------------------------------------

  /** Collects transaction hashes; the leader proposes a block when the last node's have come in. */
  function ReceiveTran(n: Node, t: TransHash, nodes: nat): (Node, bool) {
    (n.(trans := Append(n.trans, n.turn, t)),
     Complete(n.trans, n.turn, nodes) && t.blockHash == n.curr.hash && n.leader)
  }

  /** A proposed block has transactions that were collected for it, those of them that its node knows. */
  ghost predicate Gathered(b: Block, n: Node) {
    && n.turn in n.trans && (forall j, k :: 0 <= j < k < |b.tx| ==> b.tx[j] != b.tx[k])
    && (forall h :: h in b.tx ==> h in Union(n.trans[n.turn]))
  }

  /** All hashes in the entries of a collection. */
  function Union(ts: seq<TransHash>): set<string> {
    if ts == [] then {}
    else Union(ts[..|ts| - 1]) + SetOf(ts[|ts| - 1].hashes)
  }

  function SetOf(hashes: seq<string>): set<string> {
    set h | h in hashes
  }

  /** What GenerateBlock fills in; the time, the Merkle root and the hash are those of the environment. */
  predicate Generated(prev: Block, b: Block) {
    b.index == prev.index + 1 && b.prevHash == prev.hash && b.signature == "Signature"
  }

  predicate CheckBlock(n: Node, b: Block) {
    b.prevHash == n.curr.hash && n.tmp.hash != b.hash
  }

  predicate VerifyBlock(n: Node, b: Block) {
    b.prevHash == n.curr.hash && b.signature == "Signature"
  }

  /** A block that extends the current one and is not the pending one becomes pending and is voted on. */
  function ReceiveBlock(n: Node, b: Block): (Node, seq<Message>) {
    if CheckBlock(n, b) then (n.(tmp := b), [VoteMsg(b.hash, VerifyBlock(n, b))]) else (n, [])
  }

  /** Collects votes; when all are in, the verdict goes out. */
  function ReceiveVote(n: Node, v: Vote, nodes: nat): (Node, seq<Message>) {
    var k := Key(n.turn, v.hash);
    var n' := n.(round1 := Append(n.round1, k, v));
    var votes := n'.round1[k];
    (n', if Complete(n.round1, k, nodes)
         then [ReVoteMsg(votes, v.hash, MoreThanThreeQuarters(CountVotes(votes), nodes))] else [])
  }

  /** The pending block is a different one, or is stored already. */
  predicate Finished(n: Node, hash: string) {
    n.tmp.hash != hash || n.tmp.hash == n.curr.hash
  }

  function NextTurn(t: Turn): Turn {
    if t.times + 1 < ROUNDS then Turn(t.times + 1, t.transinblock) else Turn(0, t.transinblock + STEP)
  }

  function CheckAndStore(n: Node, hash: string): Node {
    if Finished(n, hash) then n else n.(chain := n.chain + [n.tmp], curr := n.tmp, turn := NextTurn(n.turn))
  }

  /** Collects verdicts; when all are in and more than three quarters are positive, the pending block is stored. */
  function ReceiveReVote(n: Node, rv: ReVote, nodes: nat): Node {
    var k := Key(n.turn, rv.hash);
    var n' := n.(round2 := Append(n.round2, k, rv));
    if Complete(n.round2, k, nodes) && !Finished(n', rv.hash) &&
       MoreThanThreeQuarters(CountVerdicts(n'.round2[k]), nodes)
    then CheckAndStore(n', rv.hash) else n'
  }

  // ---------------------------------------------------------------------------------------
  // The system
  // ---------------------------------------------------------------------------------------

  /** A broadcast: who sent it, and the hash of the sender's current block at that time. */
  datatype Event = Event(sender: nat, seen: string, msg: Message)

  /**
    The nodes, all broadcasts in order, which of them have reached whom, and the genesis block followed by the blocks
    proposed so far.
  */
  datatype System = System(nodes: seq<Node>, sent: seq<Event>, delivered: set<(nat, nat)>, blocks: seq<Block>)

  datatype Config = Config(nodes: nat, leader: nat, genesis: Block)

  predicate ValidConfig(c: Config) {
    c.leader < c.nodes && c.genesis.hash != "" && c.genesis.index == 0
  }

  predicate Init(c: Config, s: System) {
    && |s.nodes| == c.nodes && s.sent == [] && s.delivered == {} && s.blocks == [c.genesis]
    && forall i :: 0 <= i < c.nodes ==>
         s.nodes[i] == Node(i == c.leader, c.genesis, NO_BLOCK, Turn(0, FIRST), [c.genesis], map[], map[], map[])
  }

  /** SendTransV2, at any node and time. */
  predicate SendTrans(s: System, s': System, i: nat, hashes: seq<string>) {
    && i < |s.nodes|
    && s' == s.(sent := s.sent + [Event(i, s.nodes[i].curr.hash, TransMsg(s.nodes[i].curr.hash, hashes))])
  }

  /** Node i after the handler for broadcast e has run, and what the handler broadcasts; b is a new block. */
  function Handle(c: Config, s: System, i: nat, e: nat, b: Block): (Node, seq<Message>)
    requires i < |s.nodes| && e < |s.sent|
  {
    var n := s.nodes[i];
    match s.sent[e].msg
    case TransMsg(h, hashes) =>
      var (n', proposes) := ReceiveTran(n, TransHash(h, hashes), c.nodes);
      (n', if proposes then [BlockMsg(b)] else [])
    case BlockMsg(b') => ReceiveBlock(n, b')
    case VoteMsg(h, v) => ReceiveVote(n, Vote(e, h, v), c.nodes)
    case ReVoteMsg(votes, h, v) => (ReceiveReVote(n, ReVote(e, votes, h, v), c.nodes), [])
  }

  /** A broadcast reaches a node that it has not reached before. New blocks have hashes of their own. */
  ghost predicate Deliver(c: Config, s: System, s': System, i: nat, e: nat, b: Block) {
    && i < |s.nodes| && e < |s.sent| && (e, i) !in s.delivered
    && Generated(s.nodes[i].curr, b) && b.hash != "" && (forall k :: 0 <= k < |s.blocks| ==> s.blocks[k].hash != b.hash)
    && var (n', out) := Handle(c, s, i, e, b);
       && (out == [BlockMsg(b)] ==> Gathered(b, n'))
       && s' == System(s.nodes[i := n'], s.sent + Broadcasts(i, s.nodes[i].curr.hash, out), s.delivered + {(e, i)},
                       s.blocks + if out == [BlockMsg(b)] then [b] else [])
  }

  function Broadcasts(i: nat, seen: string, out: seq<Message>): seq<Event> {
    if out == [] then [] else [Event(i, seen, out[0])]
  }

  ghost predicate Next(c: Config, s: System, s': System) {
    || s' == s
    || (exists i, hashes :: SendTrans(s, s', i, hashes))
    || (exists i, e, b :: Deliver(c, s, s', i, e, b))
  }

  ghost predicate IsRun(c: Config, run: seq<System>) {
    && run != [] && Init(c, run[0])
    && forall k :: 0 < k < |run| ==> Next(c, run[k - 1], run[k])
  }

  // ---------------------------------------------------------------------------------------
  // What every step keeps
  // ---------------------------------------------------------------------------------------

  /** The proposed blocks form a chain, with hashes of their own. */
  ghost predicate BlocksInv(c: Config, blocks: seq<Block>) {
    && blocks != [] && blocks[0] == c.genesis
    && (forall k :: 0 <= k < |blocks| ==> blocks[k].hash != "" && blocks[k].index == k)
    && (forall k :: 0 < k < |blocks| ==> blocks[k].prevHash == blocks[k - 1].hash && blocks[k].signature == "Signature")
    && (forall j, k :: 0 <= j < |blocks| && 0 <= k < |blocks| && blocks[j].hash == blocks[k].hash ==> j == k)
  }

  /** Which block of the chain a turn is for: big rounds of ten, and the step within. */
  function Position(t: Turn): int {
    ROUNDS * ((t.transinblock - FIRST) / STEP) + t.times
  }

  predicate ValidTurn(t: Turn) {
    t.times < ROUNDS && t.transinblock >= FIRST && (t.transinblock - FIRST) % STEP == 0
  }

  /** A node has stored a beginning of the proposed blocks; a pending block is the next one, or none, or stored. */
  ghost predicate NodeInv(n: Node, blocks: seq<Block>) {
    var len := |n.chain|;
    && 1 <= len <= |blocks| && n.chain == blocks[..len] && n.curr == blocks[len - 1]
    && (n.tmp.hash == "" || n.tmp == n.curr || (len < |blocks| && n.tmp == blocks[len]))
    && ValidTurn(n.turn) && Position(n.turn) == len - 1
  }

  /** The leader has proposed at most one block beyond its chain, and only when its collection was complete. */
  ghost predicate LeaderInv(n: Node, nodes: nat, blocks: seq<Block>) {
    && |blocks| <= |n.chain| + 1
    && (|blocks| == |n.chain| + 1 ==> n.turn in n.trans && |n.trans[n.turn]| >= nodes)
    && (forall t :: t in n.trans ==> ValidTurn(t) && Position(t) <= Position(n.turn))
  }

  ghost predicate ChainInv(c: Config, s: System) {
    && ValidConfig(c) && |s.nodes| == c.nodes && BlocksInv(c, s.blocks)
    && (forall i :: 0 <= i < c.nodes ==> s.nodes[i].leader == (i == c.leader) && NodeInv(s.nodes[i], s.blocks))
    && LeaderInv(s.nodes[c.leader], c.nodes, s.blocks)
    && (forall e :: 0 <= e < |s.sent| && s.sent[e].msg.BlockMsg? ==> Proposed(s.sent[e].msg.block, s.blocks))
    && (forall e :: 0 <= e < |s.sent| ==> s.sent[e].sender < c.nodes && NamesBlock(s.sent[e].msg))
  }

  /** Votes and verdicts are about a block: Go's zero block, with its empty hash, is never voted on. */
  predicate NamesBlock(m: Message) {
    (m.VoteMsg? ==> m.hash != "") && (m.ReVoteMsg? ==> m.hash != "")
  }

  ghost predicate Proposed(b: Block, blocks: seq<Block>) {
    exists k :: 0 < k < |blocks| && blocks[k] == b
  }

  lemma NextTurnPosition(t: Turn)
    requires ValidTurn(t)
    ensures ValidTurn(NextTurn(t)) && Position(NextTurn(t)) == Position(t) + 1
  {
    var q := (t.transinblock - FIRST) / STEP;
    assert t.transinblock - FIRST == STEP * q;
    assert t.transinblock + STEP - FIRST == STEP * (q + 1);
  }

  lemma InitChain(c: Config, s: System)
    requires ValidConfig(c) && Init(c, s)
    ensures ChainInv(c, s)
  {
    assert [c.genesis] == s.blocks[..1];
  }

  /** A block that passes the check is the next one of the chain. */
  lemma CheckedBlockIsNext(c: Config, n: Node, b: Block, blocks: seq<Block>)
    requires BlocksInv(c, blocks) && NodeInv(n, blocks) && Proposed(b, blocks) && b.prevHash == n.curr.hash
    ensures |n.chain| < |blocks| && b == blocks[|n.chain|]
  {
    var k :| 0 < k < |blocks| && blocks[k] == b;
    assert blocks[k - 1].hash == blocks[|n.chain| - 1].hash;
  }

  lemma StoredStaysPrefix(n: Node, blocks: seq<Block>, b: Block)
    requires NodeInv(n, blocks)
    ensures NodeInv(n, blocks + [b])
  {
    assert (blocks + [b])[..|n.chain|] == blocks[..|n.chain|];
  }

  lemma StoreKeepsNode(n: Node, hash: string, blocks: seq<Block>)
    requires NodeInv(n, blocks) && hash != ""
    ensures NodeInv(CheckAndStore(n, hash), blocks)
    ensures CheckAndStore(n, hash) != n ==>
      |n.chain| < |blocks| && CheckAndStore(n, hash).chain == n.chain + [blocks[|n.chain|]]
  {
    if !Finished(n, hash) {
      NextTurnPosition(n.turn);
      assert blocks[..|n.chain| + 1] == blocks[..|n.chain|] + [blocks[|n.chain|]];
    }
  }

  /** The new block of a proposal continues the chain: the leader had proposed nothing beyond what it has stored. */
  lemma ProposalContinues(c: Config, n: Node, t: TransHash, b: Block, blocks: seq<Block>)
    requires ValidConfig(c) && BlocksInv(c, blocks) && NodeInv(n, blocks) && LeaderInv(n, c.nodes, blocks)
    requires ReceiveTran(n, t, c.nodes).1 && Generated(n.curr, b) && b.hash != ""
    requires forall k :: 0 <= k < |blocks| ==> blocks[k].hash != b.hash
    ensures |blocks| == |n.chain| && BlocksInv(c, blocks + [b])
    ensures LeaderInv(ReceiveTran(n, t, c.nodes).0, c.nodes, blocks + [b])
  {
    var all := blocks + [b];
    assert blocks[|blocks| - 1] == n.curr;
    forall k | 0 < k < |all|
      ensures all[k].prevHash == all[k - 1].hash && all[k].signature == "Signature"
    {
    }
  }

  lemma CollectingKeepsLeader(n: Node, t: TransHash, nodes: nat, blocks: seq<Block>)
    requires NodeInv(n, blocks) && LeaderInv(n, nodes, blocks)
    ensures LeaderInv(ReceiveTran(n, t, nodes).0, nodes, blocks)
  {
  }

  lemma StoringKeepsLeader(n: Node, hash: string, nodes: nat, blocks: seq<Block>)
    requires NodeInv(n, blocks) && LeaderInv(n, nodes, blocks) && hash != ""
    ensures LeaderInv(CheckAndStore(n, hash), nodes, blocks)
  {
    StoreKeepsNode(n, hash, blocks);
    if !Finished(n, hash) {
      NextTurnPosition(n.turn);
    }
  }

  /** The invariants of a node do not depend on the collections of votes. */
  lemma CollectionsDoNotMatter(n: Node, n': Node, nodes: nat, blocks: seq<Block>)
    requires n'.(round1 := n.round1, round2 := n.round2, trans := n.trans) == n
    ensures NodeInv(n, blocks) == NodeInv(n', blocks)
    ensures n.trans == n'.trans ==> LeaderInv(n, nodes, blocks) == LeaderInv(n', nodes, blocks)
  {
  }

  /** What a handler makes of one node, as far as the chain is concerned. */
  ghost predicate Kept(c: Config, n: Node, n': Node, out: seq<Message>, b: Block, blocks: seq<Block>) {
    var blocks' := blocks + if out == [BlockMsg(b)] then [b] else [];
    && n'.leader == n.leader && NodeInv(n', blocks') && BlocksInv(c, blocks') && n.chain <= n'.chain
    && (if n.leader then LeaderInv(n', c.nodes, blocks') else blocks' == blocks)
    && (out != [] && out[0].BlockMsg? ==> out == [BlockMsg(b)]) && (out != [] ==> NamesBlock(out[0]))
  }

  ghost predicate Before(c: Config, n: Node, b: Block, blocks: seq<Block>) {
    && ValidConfig(c) && BlocksInv(c, blocks) && NodeInv(n, blocks) && (n.leader ==> LeaderInv(n, c.nodes, blocks))
    && Generated(n.curr, b) && b.hash != "" && (forall k :: 0 <= k < |blocks| ==> blocks[k].hash != b.hash)
  }

  lemma TranKeeps(c: Config, n: Node, t: TransHash, b: Block, blocks: seq<Block>)
    requires Before(c, n, b, blocks)
    ensures var (n', proposes) := ReceiveTran(n, t, c.nodes);
            Kept(c, n, n', if proposes then [BlockMsg(b)] else [], b, blocks)
  {
    var (n', proposes) := ReceiveTran(n, t, c.nodes);
    CollectionsDoNotMatter(n, n', c.nodes, blocks);
    if proposes {
      ProposalContinues(c, n, t, b, blocks);
      StoredStaysPrefix(n', blocks, b);
    } else {
      assert blocks + [] == blocks;
      if n.leader {
        CollectingKeepsLeader(n, t, c.nodes, blocks);
      }
    }
  }

  lemma BlockKeeps(c: Config, n: Node, b': Block, b: Block, blocks: seq<Block>)
    requires Before(c, n, b, blocks) && Proposed(b', blocks)
    ensures Kept(c, n, ReceiveBlock(n, b').0, ReceiveBlock(n, b').1, b, blocks)
  {
    assert blocks + [] == blocks;
    if CheckBlock(n, b') {
      CheckedBlockIsNext(c, n, b', blocks);
    }
  }

  lemma VoteKeeps(c: Config, n: Node, v: Vote, b: Block, blocks: seq<Block>)
    requires Before(c, n, b, blocks) && v.hash != ""
    ensures Kept(c, n, ReceiveVote(n, v, c.nodes).0, ReceiveVote(n, v, c.nodes).1, b, blocks)
  {
    assert blocks + [] == blocks;
  }

  lemma ReVoteKeeps(c: Config, n: Node, rv: ReVote, b: Block, blocks: seq<Block>)
    requires Before(c, n, b, blocks) && rv.hash != ""
    ensures Kept(c, n, ReceiveReVote(n, rv, c.nodes), [], b, blocks)
  {
    assert blocks + [] == blocks;
    var n1 := n.(round2 := Append(n.round2, Key(n.turn, rv.hash), rv));
    CollectionsDoNotMatter(n, n1, c.nodes, blocks);
    if !Finished(n1, rv.hash) {
      StoreKeepsNode(n1, rv.hash, blocks);
      if n.leader {
        StoringKeepsLeader(n1, rv.hash, c.nodes, blocks);
      }
    }
  }

  lemma HandleKeepsNode(c: Config, s: System, i: nat, e: nat, b: Block)
    requires ChainInv(c, s) && i < c.nodes && e < |s.sent|
    requires Generated(s.nodes[i].curr, b) && b.hash != ""
    requires forall k :: 0 <= k < |s.blocks| ==> s.blocks[k].hash != b.hash
    ensures Kept(c, s.nodes[i], Handle(c, s, i, e, b).0, Handle(c, s, i, e, b).1, b, s.blocks)
  {
    var n := s.nodes[i];
    assert Before(c, n, b, s.blocks);
    assert NamesBlock(s.sent[e].msg);
    hide Kept;
    hide Before;
    hide ReceiveTran;
    hide ReceiveBlock;
    hide ReceiveVote;
    hide ReceiveReVote;
    match s.sent[e].msg
    case TransMsg(h, hashes) => TranKeeps(c, n, TransHash(h, hashes), b, s.blocks);
    case BlockMsg(b') => BlockKeeps(c, n, b', b, s.blocks);
    case VoteMsg(h, v) => VoteKeeps(c, n, Vote(e, h, v), b, s.blocks);
    case ReVoteMsg(votes, h, v) => ReVoteKeeps(c, n, ReVote(e, votes, h, v), b, s.blocks);
  }

  lemma SendTransKeepsChain(c: Config, s: System, s': System, i: nat, hashes: seq<string>)
    requires ChainInv(c, s) && SendTrans(s, s', i, hashes)
    ensures ChainInv(c, s')
  {
  }

  lemma DeliverKeepsChain(c: Config, s: System, s': System, i: nat, e: nat, b: Block)
    requires ChainInv(c, s) && Deliver(c, s, s', i, e, b)
    ensures ChainInv(c, s') && s.blocks <= s'.blocks
  {
    hide Handle;
    hide NodeInv;
    hide LeaderInv;
    hide BlocksInv;
    hide Proposed;
    HandleKeepsNode(c, s, i, e, b);
    var (n', out) := Handle(c, s, i, e, b);
    var added := Broadcasts(i, s.nodes[i].curr.hash, out);
    forall j | 0 <= j < c.nodes
      ensures s'.nodes[j].leader == (j == c.leader) && NodeInv(s'.nodes[j], s'.blocks)
    {
      if j != i && s'.blocks != s.blocks {
        StoredStaysPrefix(s.nodes[j], s.blocks, b);
      }
    }
    if out != [] && out[0].BlockMsg? {
      ProposedNow(c, s.blocks, b);
    }
    ProposedBefore(s.sent, s.blocks, s'.blocks);
  }

  lemma ProposedNow(c: Config, blocks: seq<Block>, b: Block)
    requires BlocksInv(c, blocks)
    ensures Proposed(b, blocks + [b])
  {
    assert (blocks + [b])[|blocks|] == b;
  }

  lemma ProposedBefore(sent: seq<Event>, blocks: seq<Block>, blocks': seq<Block>)
    requires forall e :: 0 <= e < |sent| && sent[e].msg.BlockMsg? ==> Proposed(sent[e].msg.block, blocks)
    requires blocks <= blocks'
    ensures forall e :: 0 <= e < |sent| && sent[e].msg.BlockMsg? ==> Proposed(sent[e].msg.block, blocks')
  {
    forall e | 0 <= e < |sent| && sent[e].msg.BlockMsg?
      ensures Proposed(sent[e].msg.block, blocks')
    {
      var k :| 0 < k < |blocks| && blocks[k] == sent[e].msg.block;
      assert blocks'[k] == blocks[k];
    }
  }

  // ---------------------------------------------------------------------------------------
  // Votes and verdicts
  // ---------------------------------------------------------------------------------------

  predicate IsVote(sent: seq<Event>, v: Vote) {
    v.id < |sent| && sent[v.id].msg == VoteMsg(v.hash, v.vote)
  }

  predicate IsVerdict(sent: seq<Event>, rv: ReVote) {
    rv.id < |sent| && sent[rv.id].msg == ReVoteMsg(rv.votes, rv.hash, rv.verdict)
  }

  ghost predicate ProposalReached(sent: seq<Event>, delivered: set<(nat, nat)>, hash: string, i: nat) {
    exists f :: 0 <= f < |sent| && sent[f].msg.BlockMsg? && sent[f].msg.block.hash == hash && (f, i) in delivered
  }

  /** The block named by hash extends the block that the sender of a vote had at that time. */
  ghost predicate Extends(blocks: seq<Block>, hash: string, seen: string) {
    exists k :: 0 < k < |blocks| && blocks[k].hash == hash && blocks[k].prevHash == seen
  }

  predicate SameProposal(a: Event, b: Event) {
    a.msg.BlockMsg? && b.msg.BlockMsg? && a.msg.block.hash == b.msg.block.hash
  }

  predicate SameVote(a: Event, b: Event) {
    a.msg.VoteMsg? && b.msg.VoteMsg? && a.sender == b.sender && a.msg.hash == b.msg.hash
  }

  predicate SameVerdict(a: Event, b: Event) {
    a.msg.ReVoteMsg? && b.msg.ReVoteMsg? && a.sender == b.sender && a.msg.hash == b.msg.hash
  }

  /** Every proposal has a hash of its own; a node votes once on each, when it gets it. */
  ghost predicate VotesInv(sent: seq<Event>, delivered: set<(nat, nat)>, blocks: seq<Block>) {
    && (forall e, f :: 0 <= e < |sent| && 0 <= f < |sent| && SameProposal(sent[e], sent[f]) ==> e == f)
    && (forall e, i :: (e, i) in delivered ==> e < |sent|)
    && (forall e :: 0 <= e < |sent| && sent[e].msg.VoteMsg? ==>
          ProposalReached(sent, delivered, sent[e].msg.hash, sent[e].sender))
    && (forall e :: 0 <= e < |sent| && sent[e].msg.VoteMsg? && sent[e].msg.vote ==>
          Extends(blocks, sent[e].msg.hash, sent[e].seen))
    && OneVoteEach(sent)
  }

  ghost predicate OneVoteEach(sent: seq<Event>) {
    forall e, f :: 0 <= e < |sent| && 0 <= f < |sent| && SameVote(sent[e], sent[f]) ==> e == f
  }

  ghost predicate OneVerdictEach(sent: seq<Event>) {
    forall e, f :: 0 <= e < |sent| && 0 <= f < |sent| && SameVerdict(sent[e], sent[f]) ==> e == f
  }

  /** Each entry of a node's collections is a different broadcast that has reached the node. */
  ghost predicate Round1Inv(round1: map<Key, seq<Vote>>, i: nat, sent: seq<Event>, delivered: set<(nat, nat)>) {
    && (forall k, p :: k in round1 && 0 <= p < |round1[k]| ==>
          IsVote(sent, round1[k][p]) && round1[k][p].hash == k.hash && (round1[k][p].id, i) in delivered)
    && (forall k, p, l, q :: k in round1 && l in round1 && 0 <= p < |round1[k]| && 0 <= q < |round1[l]| ==>
          round1[k][p].id == round1[l][q].id ==> k == l && p == q)
  }

  ghost predicate Round2Inv(round2: map<Key, seq<ReVote>>, i: nat, sent: seq<Event>, delivered: set<(nat, nat)>) {
    && (forall k, p :: k in round2 && 0 <= p < |round2[k]| ==>
          IsVerdict(sent, round2[k][p]) && round2[k][p].hash == k.hash && (round2[k][p].id, i) in delivered)
    && (forall k, p, l, q :: k in round2 && l in round2 && 0 <= p < |round2[k]| && 0 <= q < |round2[l]| ==>
          round2[k][p].id == round2[l][q].id ==> k == l && p == q)
  }

  /** One vote of every node on the block named by hash. */
  ghost predicate AllVotes(nodes: nat, sent: seq<Event>, votes: seq<Vote>, hash: string) {
    && |votes| == nodes
    && (forall p :: 0 <= p < |votes| ==> IsVote(sent, votes[p]) && votes[p].hash == hash)
    && (forall p, q :: 0 <= p < |votes| && 0 <= q < |votes| && votes[p].id == votes[q].id ==> p == q)
  }

  ghost predicate AllVerdicts(nodes: nat, sent: seq<Event>, verdicts: seq<ReVote>, hash: string) {
    && |verdicts| == nodes
    && (forall p :: 0 <= p < |verdicts| ==> IsVerdict(sent, verdicts[p]) && verdicts[p].hash == hash)
    && (forall p, q :: 0 <= p < |verdicts| && 0 <= q < |verdicts| && verdicts[p].id == verdicts[q].id ==> p == q)
  }

  /** A node whose verdict is out has a full collection of votes on that block. */
  ghost predicate Collected(round1: map<Key, seq<Vote>>, nodes: nat, hash: string) {
    exists k :: k in round1 && k.hash == hash && |round1[k]| >= nodes
  }

  ghost predicate VerdictsInv(c: Config, s: System)
    requires |s.nodes| == c.nodes
  {
    && (forall e :: 0 <= e < |s.sent| && s.sent[e].msg.ReVoteMsg? ==>
          var m := s.sent[e].msg;
          AllVotes(c.nodes, s.sent, m.votes, m.hash) &&
          m.verdict == MoreThanThreeQuarters(CountVotes(m.votes), c.nodes) &&
          s.sent[e].sender < c.nodes && Collected(s.nodes[s.sent[e].sender].round1, c.nodes, m.hash))
    && OneVerdictEach(s.sent)
  }

  /** More than three quarters of the verdicts of all nodes on the block named by hash are positive. */
  ghost predicate Endorsed(nodes: nat, sent: seq<Event>, hash: string) {
    exists verdicts :: AllVerdicts(nodes, sent, verdicts, hash) && MoreThanThreeQuarters(CountVerdicts(verdicts), nodes)
  }

  ghost predicate VotingInv(c: Config, s: System) {
    && ChainInv(c, s) && VotesInv(s.sent, s.delivered, s.blocks) && VerdictsInv(c, s)
    && (forall i :: 0 <= i < c.nodes ==>
          Round1Inv(s.nodes[i].round1, i, s.sent, s.delivered) && Round2Inv(s.nodes[i].round2, i, s.sent, s.delivered))
    && (forall i, k :: 0 <= i < c.nodes && 0 < k < |s.nodes[i].chain| ==>
          Endorsed(c.nodes, s.sent, s.nodes[i].chain[k].hash))
  }

  // ---------------------------------------------------------------------------------------
  // Counting senders
  // ---------------------------------------------------------------------------------------

  /** The senders of the positive votes, or of all. */
  ghost function Senders(sent: seq<Event>, votes: seq<Vote>, positive: bool): set<nat>
  {
    set p | 0 <= p < |votes| && IsVote(sent, votes[p]) && (votes[p].vote || !positive) :: sent[votes[p].id].sender
  }

  lemma {:induction false} BelowCard(s: set<nat>, n: nat)
    requires forall x :: x in s ==> x < n
    ensures |s| <= n
    decreases n
  {
    if n == 0 {
      assert s == {};
    } else {
      BelowCard(s - {n - 1}, n - 1);
    }
  }

  lemma SendersOfLast(sent: seq<Event>, votes: seq<Vote>, positive: bool)
    requires votes != [] && IsVote(sent, votes[|votes| - 1])
    ensures var last := votes[|votes| - 1];
            Senders(sent, votes, positive) == Senders(sent, votes[..|votes| - 1], positive) +
              if last.vote || !positive then {sent[last.id].sender} else {}
  {
    var last, rest := votes[|votes| - 1], votes[..|votes| - 1];
    assert forall p :: 0 <= p < |rest| ==> rest[p] == votes[p];
    var all, some := Senders(sent, votes, positive), Senders(sent, rest, positive);
    forall x | x in some
      ensures x in all
    {
      var p :| 0 <= p < |rest| && IsVote(sent, rest[p]) && (rest[p].vote || !positive) && sent[rest[p].id].sender == x;
      assert votes[p] == rest[p];
    }
    forall x | x in all
      ensures x in some || ((last.vote || !positive) && x == sent[last.id].sender)
    {
      var p :| 0 <= p < |votes| && IsVote(sent, votes[p]) && (votes[p].vote || !positive) &&
        sent[votes[p].id].sender == x;
      if p < |rest| {
        assert votes[p] == rest[p];
      }
    }
  }

  /** Different votes on one block come from different nodes. */
  lemma {:induction false} SendersCard(sent: seq<Event>, votes: seq<Vote>, hash: string, positive: bool)
    requires OneVoteEach(sent)
    requires forall p :: 0 <= p < |votes| ==> IsVote(sent, votes[p]) && votes[p].hash == hash
    requires forall p, q :: 0 <= p < |votes| && 0 <= q < |votes| && votes[p].id == votes[q].id ==> p == q
    ensures |Senders(sent, votes, positive)| == if positive then CountVotes(votes) else |votes|
    decreases |votes|
  {
    if votes == [] {
      assert Senders(sent, votes, positive) == {};
    } else {
      var last := votes[|votes| - 1];
      var rest := votes[..|votes| - 1];
      SendersCard(sent, rest, hash, positive);
      SendersOfLast(sent, votes, positive);
      forall p | 0 <= p < |rest|
        ensures sent[rest[p].id].sender != sent[last.id].sender
      {
        assert rest[p] == votes[p] && votes[p].id != last.id;
      }
      hide OneVoteEach;
    }
  }

  /** There are no more votes on a block than nodes. */
  lemma VotesAtMostNodes(c: Config, s: System, votes: seq<Vote>, hash: string)
    requires ChainInv(c, s) && OneVoteEach(s.sent)
    requires forall p :: 0 <= p < |votes| ==> IsVote(s.sent, votes[p]) && votes[p].hash == hash
    requires forall p, q :: 0 <= p < |votes| && 0 <= q < |votes| && votes[p].id == votes[q].id ==> p == q
    ensures |votes| <= c.nodes
  {
    SendersCard(s.sent, votes, hash, false);
    BelowCard(Senders(s.sent, votes, false), c.nodes);
  }

  ghost function VerdictSenders(sent: seq<Event>, verdicts: seq<ReVote>): set<nat>
  {
    set p | 0 <= p < |verdicts| && IsVerdict(sent, verdicts[p]) && verdicts[p].verdict :: sent[verdicts[p].id].sender
  }

  lemma VerdictSendersOfLast(sent: seq<Event>, verdicts: seq<ReVote>)
    requires verdicts != [] && IsVerdict(sent, verdicts[|verdicts| - 1])
    ensures var last := verdicts[|verdicts| - 1];
            VerdictSenders(sent, verdicts) == VerdictSenders(sent, verdicts[..|verdicts| - 1]) +
              if last.verdict then {sent[last.id].sender} else {}
  {
    var last, rest := verdicts[|verdicts| - 1], verdicts[..|verdicts| - 1];
    var all, some := VerdictSenders(sent, verdicts), VerdictSenders(sent, rest);
    forall x | x in some
      ensures x in all
    {
      var p :| 0 <= p < |rest| && IsVerdict(sent, rest[p]) && rest[p].verdict && sent[rest[p].id].sender == x;
      assert verdicts[p] == rest[p];
    }
    forall x | x in all
      ensures x in some || (last.verdict && x == sent[last.id].sender)
    {
      var p :| 0 <= p < |verdicts| && IsVerdict(sent, verdicts[p]) && verdicts[p].verdict &&
        sent[verdicts[p].id].sender == x;
      if p < |rest| {
        assert verdicts[p] == rest[p];
      }
    }
  }

  lemma {:induction false} VerdictSendersCard(sent: seq<Event>, verdicts: seq<ReVote>, hash: string)
    requires OneVerdictEach(sent)
    requires forall p :: 0 <= p < |verdicts| ==> IsVerdict(sent, verdicts[p]) && verdicts[p].hash == hash
    requires forall p, q :: 0 <= p < |verdicts| && 0 <= q < |verdicts| && verdicts[p].id == verdicts[q].id ==> p == q
    ensures |VerdictSenders(sent, verdicts)| == CountVerdicts(verdicts)
    decreases |verdicts|
  {
    if verdicts == [] {
      assert VerdictSenders(sent, verdicts) == {};
    } else {
      var last := verdicts[|verdicts| - 1];
      var rest := verdicts[..|verdicts| - 1];
      VerdictSendersCard(sent, rest, hash);
      VerdictSendersOfLast(sent, verdicts);
      forall p | 0 <= p < |rest|
        ensures sent[rest[p].id].sender != sent[last.id].sender
      {
        assert rest[p] == verdicts[p] && verdicts[p].id != last.id;
      }
      hide OneVerdictEach;
    }
  }

  // ---------------------------------------------------------------------------------------
  // Every step keeps the voting invariants
  // ---------------------------------------------------------------------------------------

  lemma InitVoting(c: Config, s: System)
    requires ValidConfig(c) && Init(c, s)
    ensures VotingInv(c, s)
  {
    InitChain(c, s);
  }

  lemma MoreReached(sent: seq<Event>, delivered: set<(nat, nat)>, hash: string, i: nat, sent': seq<Event>,
      delivered': set<(nat, nat)>)
    requires ProposalReached(sent, delivered, hash, i) && sent <= sent' && delivered <= delivered'
    ensures ProposalReached(sent', delivered', hash, i)
  {
    var f :| 0 <= f < |sent| && sent[f].msg.BlockMsg? && sent[f].msg.block.hash == hash && (f, i) in delivered;
    assert sent'[f] == sent[f];
  }

  lemma MoreBlocks(blocks: seq<Block>, hash: string, seen: string, blocks': seq<Block>)
    requires Extends(blocks, hash, seen) && blocks <= blocks'
    ensures Extends(blocks', hash, seen)
  {
    var k :| 0 < k < |blocks| && blocks[k].hash == hash && blocks[k].prevHash == seen;
    assert blocks'[k] == blocks[k];
  }

  /** One broadcast more, which breaks no rule by itself, and one delivery more. */
  lemma VotesGrow(sent: seq<Event>, delivered: set<(nat, nat)>, blocks: seq<Block>, ev: Event,
      delivered': set<(nat, nat)>, blocks': seq<Block>)
    requires VotesInv(sent, delivered, blocks) && delivered <= delivered' && blocks <= blocks'
    requires forall e, i :: (e, i) in delivered' ==> e < |sent|
    requires ev.msg.BlockMsg? ==> forall e :: 0 <= e < |sent| ==> !SameProposal(sent[e], ev)
    requires ev.msg.VoteMsg? ==> ProposalReached(sent, delivered', ev.msg.hash, ev.sender)
    requires ev.msg.VoteMsg? && ev.msg.vote ==> Extends(blocks', ev.msg.hash, ev.seen)
    requires ev.msg.VoteMsg? ==> forall e :: 0 <= e < |sent| ==> !SameVote(sent[e], ev)
    ensures VotesInv(sent + [ev], delivered', blocks')
  {
    var sent' := sent + [ev];
    forall e | 0 <= e < |sent'| && sent'[e].msg.VoteMsg?
      ensures ProposalReached(sent', delivered', sent'[e].msg.hash, sent'[e].sender)
      ensures sent'[e].msg.vote ==> Extends(blocks', sent'[e].msg.hash, sent'[e].seen)
    {
      if e < |sent| {
        MoreReached(sent, delivered, sent[e].msg.hash, sent[e].sender, sent', delivered');
        if sent[e].msg.vote {
          MoreBlocks(blocks, sent[e].msg.hash, sent[e].seen, blocks');
        }
      } else {
        MoreReached(sent, delivered', ev.msg.hash, ev.sender, sent', delivered');
      }
    }
  }

  lemma DeliveriesGrow(sent: seq<Event>, delivered: set<(nat, nat)>, blocks: seq<Block>, delivered': set<(nat, nat)>)
    requires VotesInv(sent, delivered, blocks) && delivered <= delivered'
    requires forall e, i :: (e, i) in delivered' ==> e < |sent|
    ensures VotesInv(sent, delivered', blocks)
  {
    forall e | 0 <= e < |sent| && sent[e].msg.VoteMsg?
      ensures ProposalReached(sent, delivered', sent[e].msg.hash, sent[e].sender)
    {
      MoreReached(sent, delivered, sent[e].msg.hash, sent[e].sender, sent, delivered');
    }
  }

  /** A node that votes on a block has not voted on it before: it would have got the proposal twice. */
  lemma FirstVote(sent: seq<Event>, delivered: set<(nat, nat)>, blocks: seq<Block>, e: nat, i: nat, ev: Event)
    requires VotesInv(sent, delivered, blocks) && e < |sent| && sent[e].msg.BlockMsg? && (e, i) !in delivered
    requires ev.msg.VoteMsg? && ev.sender == i && ev.msg.hash == sent[e].msg.block.hash
    ensures forall f :: 0 <= f < |sent| ==> !SameVote(sent[f], ev)
  {
    forall f | 0 <= f < |sent|
      ensures !SameVote(sent[f], ev)
    {
      if SameVote(sent[f], ev) {
        var g :| 0 <= g < |sent| && sent[g].msg.BlockMsg? && sent[g].msg.block.hash == ev.msg.hash &&
          (g, i) in delivered;
        assert SameProposal(sent[g], sent[e]);
      }
    }
  }

  lemma DeliverKeepsVotes(c: Config, s: System, s': System, i: nat, e: nat, b: Block)
    requires VotingInv(c, s) && Deliver(c, s, s', i, e, b)
    ensures VotesInv(s'.sent, s'.delivered, s'.blocks)
  {
    hide VerdictsInv;
    hide Round1Inv;
    hide Round2Inv;
    hide Endorsed;
    hide Gathered;
    hide NodeInv;
    hide LeaderInv;
    var n := s.nodes[i];
    var (n', out) := Handle(c, s, i, e, b);
    HandleKeepsNode(c, s, i, e, b);
    if out == [] {
      assert s'.sent == s.sent && s'.blocks == s.blocks;
      DeliveriesGrow(s.sent, s.delivered, s.blocks, s'.delivered);
    } else {
      var ev := Event(i, n.curr.hash, out[0]);
      assert s'.sent == s.sent + [ev];
      match s.sent[e].msg
      case TransMsg(h, _) =>
        forall f | 0 <= f < |s.sent|
          ensures !SameProposal(s.sent[f], ev)
        {
          if s.sent[f].msg.BlockMsg? {
            var k :| 0 < k < |s.blocks| && s.blocks[k] == s.sent[f].msg.block;
          }
        }
        VotesGrow(s.sent, s.delivered, s.blocks, ev, s'.delivered, s'.blocks);
      case BlockMsg(b') =>
        FirstVote(s.sent, s.delivered, s.blocks, e, i, ev);
        assert (e, i) in s'.delivered;
        CheckedBlockIsNext(c, n, b', s.blocks);
        assert Extends(s.blocks, b'.hash, n.curr.hash);
        VotesGrow(s.sent, s.delivered, s.blocks, ev, s'.delivered, s'.blocks);
      case VoteMsg(h, v) =>
        VotesGrow(s.sent, s.delivered, s.blocks, ev, s'.delivered, s'.blocks);
      case ReVoteMsg(votes, h, v) =>
    }
  }

  lemma Round1Grows(round1: map<Key, seq<Vote>>, i: nat, sent: seq<Event>, delivered: set<(nat, nat)>,
      sent': seq<Event>, delivered': set<(nat, nat)>)
    requires Round1Inv(round1, i, sent, delivered) && sent <= sent' && delivered <= delivered'
    ensures Round1Inv(round1, i, sent', delivered')
  {
  }

  lemma Round2Grows(round2: map<Key, seq<ReVote>>, i: nat, sent: seq<Event>, delivered: set<(nat, nat)>,
      sent': seq<Event>, delivered': set<(nat, nat)>)
    requires Round2Inv(round2, i, sent, delivered) && sent <= sent' && delivered <= delivered'
    ensures Round2Inv(round2, i, sent', delivered')
  {
  }

  lemma AppendVote(round1: map<Key, seq<Vote>>, k: Key, v: Vote, i: nat, sent: seq<Event>, delivered: set<(nat, nat)>)
    requires Round1Inv(round1, i, sent, delivered) && IsVote(sent, v) && v.hash == k.hash
    requires (v.id, i) !in delivered
    ensures Round1Inv(Append(round1, k, v), i, sent, delivered + {(v.id, i)})
  {
    var r := Append(round1, k, v);
    forall l, q | l in r && 0 <= q < |r[l]|
      ensures r[l][q] == v || (l in round1 && q < |round1[l]| && r[l][q] == round1[l][q])
    {
    }
  }

  lemma AppendVerdict(round2: map<Key, seq<ReVote>>, k: Key, rv: ReVote, i: nat, sent: seq<Event>,
      delivered: set<(nat, nat)>)
    requires Round2Inv(round2, i, sent, delivered) && IsVerdict(sent, rv) && rv.hash == k.hash
    requires (rv.id, i) !in delivered
    ensures Round2Inv(Append(round2, k, rv), i, sent, delivered + {(rv.id, i)})
  {
    var r := Append(round2, k, rv);
    forall l, q | l in r && 0 <= q < |r[l]|
      ensures r[l][q] == rv || (l in round2 && q < |round2[l]| && r[l][q] == round2[l][q])
    {
    }
  }

  ghost predicate RoundsInv(n: Node, i: nat, sent: seq<Event>, delivered: set<(nat, nat)>) {
    Round1Inv(n.round1, i, sent, delivered) && Round2Inv(n.round2, i, sent, delivered)
  }

  lemma HandledRounds(c: Config, s: System, s': System, i: nat, e: nat, b: Block)
    requires VotingInv(c, s) && Deliver(c, s, s', i, e, b)
    ensures var n, n', d := s.nodes[i], s'.nodes[i], s.delivered + {(e, i)};
            && (n'.round1 == n.round1 || Round1Inv(n'.round1, i, s.sent, d))
            && (n'.round2 == n.round2 || Round2Inv(n'.round2, i, s.sent, d))
    ensures |s'.nodes| == |s.nodes| == c.nodes && s.sent <= s'.sent && s.delivered + {(e, i)} == s'.delivered
    ensures forall j :: 0 <= j < c.nodes ==>
              (j == i || s'.nodes[j] == s.nodes[j]) && RoundsInv(s.nodes[j], j, s.sent, s.delivered)
  {
    hide Round1Inv;
    hide Round2Inv;
    hide Append;
    hide VerdictsInv;
    hide VotesInv;
    var n, m := s.nodes[i], s.sent[e].msg;
    if m.VoteMsg? {
      AppendVote(n.round1, Key(n.turn, m.hash), Vote(e, m.hash, m.vote), i, s.sent, s.delivered);
    } else if m.ReVoteMsg? {
      AppendVerdict(n.round2, Key(n.turn, m.hash), ReVote(e, m.votes, m.hash, m.verdict), i, s.sent, s.delivered);
    }
  }

  lemma DeliverKeepsRounds(c: Config, s: System, s': System, i: nat, e: nat, b: Block)
    requires VotingInv(c, s) && Deliver(c, s, s', i, e, b)
    ensures forall j :: 0 <= j < c.nodes ==> RoundsInv(s'.nodes[j], j, s'.sent, s'.delivered)
  {
    var n, n' := s.nodes[i], s'.nodes[i];
    HandledRounds(c, s, s', i, e, b);
    hide VotingInv;
    hide Handle;
    hide Append;
    hide Round1Inv;
    hide Round2Inv;
    forall j | 0 <= j < c.nodes
      ensures RoundsInv(s'.nodes[j], j, s'.sent, s'.delivered)
    {
      if j == i && n'.round1 != n.round1 {
        Round1Grows(n'.round1, i, s.sent, s.delivered + {(e, i)}, s'.sent, s'.delivered);
      } else {
        Round1Grows(s.nodes[j].round1, j, s.sent, s.delivered, s'.sent, s'.delivered);
      }
      if j == i && n'.round2 != n.round2 {
        Round2Grows(n'.round2, i, s.sent, s.delivered + {(e, i)}, s'.sent, s'.delivered);
      } else {
        Round2Grows(s.nodes[j].round2, j, s.sent, s.delivered, s'.sent, s'.delivered);
      }
    }
  }

  /** The collection that a verdict is drawn from is complete: there is one vote of every node in it. */
  lemma CompleteCollection(n: Node, v: Vote, nodes: nat, i: nat, sent: seq<Event>, delivered: set<(nat, nat)>)
    requires Round1Inv(n.round1, i, sent, delivered) && IsVote(sent, v) && (v.id, i) !in delivered
    requires Complete(n.round1, Key(n.turn, v.hash), nodes)
    ensures AllVotes(nodes, sent, ReceiveVote(n, v, nodes).0.round1[Key(n.turn, v.hash)], v.hash)
    ensures Collected(ReceiveVote(n, v, nodes).0.round1, nodes, v.hash)
  {
    var k := Key(n.turn, v.hash);
    AppendVote(n.round1, k, v, i, sent, delivered);
    assert |Append(n.round1, k, v)[k]| >= nodes;
  }

  /** A node that completes a collection on a block has not completed one on it before: that would take 2 N votes. */
  lemma FirstVerdict(c: Config, s: System, i: nat, v: Vote)
    requires VotingInv(c, s) && i < c.nodes && IsVote(s.sent, v) && (v.id, i) !in s.delivered
    requires Complete(s.nodes[i].round1, Key(s.nodes[i].turn, v.hash), c.nodes)
    ensures !Collected(s.nodes[i].round1, c.nodes, v.hash)
  {
    var n := s.nodes[i];
    var k := Key(n.turn, v.hash);
    if Collected(n.round1, c.nodes, v.hash) {
      var l :| l in n.round1 && l.hash == v.hash && |n.round1[l]| >= c.nodes;
      assert l != k;
      var both := n.round1[l] + n.round1[k] + [v];
      forall p, q | 0 <= p < |both| && 0 <= q < |both| && both[p].id == both[q].id
        ensures p == q
      {
        VoteInCollections(n.round1, l, k, v, i, s.sent, s.delivered, p, q);
      }
      forall p | 0 <= p < |both|
        ensures IsVote(s.sent, both[p]) && both[p].hash == v.hash
      {
      }
      VotesAtMostNodes(c, s, both, v.hash);
    }
  }

  lemma VoteInCollections(round1: map<Key, seq<Vote>>, l: Key, k: Key, v: Vote, i: nat, sent: seq<Event>,
      delivered: set<(nat, nat)>, p: nat, q: nat)
    requires Round1Inv(round1, i, sent, delivered) && l in round1 && k in round1 && l != k && (v.id, i) !in delivered
    requires p < |round1[l] + round1[k] + [v]| && q < |round1[l] + round1[k] + [v]|
    requires (round1[l] + round1[k] + [v])[p].id == (round1[l] + round1[k] + [v])[q].id
    ensures p == q
  {
    var m := |round1[l]|;
    var both := round1[l] + round1[k] + [v];
    assert both[p] == if p < m then round1[l][p] else if p < m + |round1[k]| then round1[k][p - m] else v;
    assert both[q] == if q < m then round1[l][q] else if q < m + |round1[k]| then round1[k][q - m] else v;
  }

  lemma CollectedStays(round1: map<Key, seq<Vote>>, nodes: nat, hash: string, k: Key, v: Vote)
    requires Collected(round1, nodes, hash)
    ensures Collected(Append(round1, k, v), nodes, hash)
  {
    var l :| l in round1 && l.hash == hash && |round1[l]| >= nodes;
    assert |Append(round1, k, v)[l]| >= nodes;
  }

  lemma DeliverKeepsVerdicts(c: Config, s: System, s': System, i: nat, e: nat, b: Block)
    requires VotingInv(c, s) && Deliver(c, s, s', i, e, b)
    ensures VerdictsInv(c, s')
  {
    var n, n', out := s.nodes[i], Handle(c, s, i, e, b).0, Handle(c, s, i, e, b).1;
    forall h | Collected(n.round1, c.nodes, h)
      ensures Collected(n'.round1, c.nodes, h)
    {
      if s.sent[e].msg.VoteMsg? {
        CollectedStays(n.round1, c.nodes, h, Key(n.turn, s.sent[e].msg.hash),
          Vote(e, s.sent[e].msg.hash, s.sent[e].msg.vote));
      }
    }
    if out != [] && out[0].ReVoteMsg? {
      var v := Vote(e, s.sent[e].msg.hash, s.sent[e].msg.vote);
      CompleteCollection(n, v, c.nodes, i, s.sent, s.delivered);
      FirstVerdict(c, s, i, v);
    }
    hide Handle;
    VerdictsGrow(c, s, s', i, out);
  }

  lemma VerdictsGrow(c: Config, s: System, s': System, i: nat, out: seq<Message>)
    requires |s.nodes| == |s'.nodes| == c.nodes && VerdictsInv(c, s) && i < c.nodes
    requires s'.sent == s.sent + Broadcasts(i, s.nodes[i].curr.hash, out)
    requires forall j :: 0 <= j < c.nodes && j != i ==> s'.nodes[j] == s.nodes[j]
    requires forall h :: Collected(s.nodes[i].round1, c.nodes, h) ==> Collected(s'.nodes[i].round1, c.nodes, h)
    requires out != [] && out[0].ReVoteMsg? ==>
      AllVotes(c.nodes, s.sent, out[0].votes, out[0].hash) &&
      out[0].verdict == MoreThanThreeQuarters(CountVotes(out[0].votes), c.nodes) &&
      Collected(s'.nodes[i].round1, c.nodes, out[0].hash) && !Collected(s.nodes[i].round1, c.nodes, out[0].hash)
    ensures VerdictsInv(c, s')
  {
    hide Collected;
    forall e | 0 <= e < |s.sent|
      ensures s'.sent[e] == s.sent[e]
    {
    }
  }

  lemma EndorsedStays(nodes: nat, sent: seq<Event>, hash: string, sent': seq<Event>)
    requires Endorsed(nodes, sent, hash) && sent <= sent'
    ensures Endorsed(nodes, sent', hash)
  {
    var verdicts: seq<ReVote> :| AllVerdicts(nodes, sent, verdicts, hash) &&
                    MoreThanThreeQuarters(CountVerdicts(verdicts), nodes);
    assert AllVerdicts(nodes, sent', verdicts, hash);
  }

  /** A block is stored on the verdicts of all nodes. */
  lemma StoredIsEndorsed(n: Node, rv: ReVote, nodes: nat, i: nat, sent: seq<Event>, delivered: set<(nat, nat)>)
    requires Round2Inv(n.round2, i, sent, delivered) && IsVerdict(sent, rv) && (rv.id, i) !in delivered
    ensures var n' := ReceiveReVote(n, rv, nodes);
            n'.chain == n.chain || (n'.chain == n.chain + [n.tmp] && Endorsed(nodes, sent, n.tmp.hash))
  {
    var k := Key(n.turn, rv.hash);
    AppendVerdict(n.round2, k, rv, i, sent, delivered);
    var n' := ReceiveReVote(n, rv, nodes);
    StoredHasVerdicts(n, rv, nodes);
    hide ReceiveReVote;
    if n'.chain != n.chain {
      var r := Append(n.round2, k, rv);
      VerdictsOfKey(r, k, i, sent, delivered + {(rv.id, i)}, nodes);
    }
  }

  /** What a node stores is its pending block, on more than three quarters of as many verdicts as there are nodes. */
  lemma StoredHasVerdicts(n: Node, rv: ReVote, nodes: nat)
    ensures var n', k, r := ReceiveReVote(n, rv, nodes), Key(n.turn, rv.hash), Append(n.round2, Key(n.turn, rv.hash),
      rv);
            n'.chain == n.chain ||
            (n'.chain == n.chain + [n.tmp] && n.tmp.hash == rv.hash && k in r && |r[k]| == nodes &&
             MoreThanThreeQuarters(CountVerdicts(r[k]), nodes))
  {
  }

  lemma VerdictsOfKey(r: map<Key, seq<ReVote>>, k: Key, i: nat, sent: seq<Event>, delivered: set<(nat, nat)>,
    nodes: nat)
    requires Round2Inv(r, i, sent, delivered) && k in r && |r[k]| == nodes
    ensures AllVerdicts(nodes, sent, r[k], k.hash)
  {
  }

  lemma HandledIsEndorsed(c: Config, s: System, s': System, i: nat, e: nat, b: Block)
    requires VotingInv(c, s) && Deliver(c, s, s', i, e, b)
    ensures var n, n' := s.nodes[i], s'.nodes[i];
            n'.chain == n.chain || (n'.chain == n.chain + [n.tmp] && Endorsed(c.nodes, s.sent, n.tmp.hash))
  {
    hide Endorsed;
    hide VerdictsInv;
    hide VotesInv;
    hide Round1Inv;
    hide Round2Inv;
    var n, m := s.nodes[i], s.sent[e].msg;
    if m.ReVoteMsg? {
      StoredIsEndorsed(n, ReVote(e, m.votes, m.hash, m.verdict), c.nodes, i, s.sent, s.delivered);
    }
  }

  lemma DeliverKeepsEndorsed(c: Config, s: System, s': System, i: nat, e: nat, b: Block)
    requires VotingInv(c, s) && Deliver(c, s, s', i, e, b)
    ensures forall j, k :: 0 <= j < c.nodes && 0 < k < |s'.nodes[j].chain| ==>
              Endorsed(c.nodes, s'.sent, s'.nodes[j].chain[k].hash)
  {
    HandledIsEndorsed(c, s, s', i, e, b);
    hide Handle;
    hide Endorsed;
    hide VerdictsInv;
    hide VotesInv;
    hide Round1Inv;
    hide Round2Inv;
    hide ChainInv;
    forall j, k | 0 <= j < c.nodes && 0 < k < |s'.nodes[j].chain|
      ensures Endorsed(c.nodes, s'.sent, s'.nodes[j].chain[k].hash)
    {
      var hash := s'.nodes[j].chain[k].hash;
      assert Endorsed(c.nodes, s.sent, hash) by {
        if k < |s.nodes[j].chain| {
          assert s'.nodes[j].chain[k] == s.nodes[j].chain[k];
        }
      }
      EndorsedStays(c.nodes, s.sent, hash, s'.sent);
    }
  }

  lemma SendTransKeepsVoting(c: Config, s: System, s': System, i: nat, hashes: seq<string>)
    requires VotingInv(c, s) && SendTrans(s, s', i, hashes)
    ensures VotingInv(c, s')
  {
    var ev := s'.sent[|s.sent|];
    SendTransKeepsChain(c, s, s', i, hashes);
    VotesGrow(s.sent, s.delivered, s.blocks, ev, s.delivered, s.blocks);
    VerdictsGrow(c, s, s', i, [ev.msg]);
    forall j | 0 <= j < c.nodes
      ensures RoundsInv(s'.nodes[j], j, s'.sent, s'.delivered)
    {
      Round1Grows(s.nodes[j].round1, j, s.sent, s.delivered, s'.sent, s'.delivered);
      Round2Grows(s.nodes[j].round2, j, s.sent, s.delivered, s'.sent, s'.delivered);
    }
    forall j, k | 0 <= j < c.nodes && 0 < k < |s'.nodes[j].chain|
      ensures Endorsed(c.nodes, s'.sent, s'.nodes[j].chain[k].hash)
    {
      EndorsedStays(c.nodes, s.sent, s.nodes[j].chain[k].hash, s'.sent);
    }
  }

  lemma DeliverKeepsVoting(c: Config, s: System, s': System, i: nat, e: nat, b: Block)
    requires VotingInv(c, s) && Deliver(c, s, s', i, e, b)
    ensures VotingInv(c, s')
  {
    DeliverKeepsChain(c, s, s', i, e, b);
    DeliverKeepsVotes(c, s, s', i, e, b);
    DeliverKeepsVerdicts(c, s, s', i, e, b);
    DeliverKeepsRounds(c, s, s', i, e, b);
    DeliverKeepsEndorsed(c, s, s', i, e, b);
  }

  /** Every state of every run satisfies the invariants. */
  lemma {:induction false} RunsKeepVoting(c: Config, run: seq<System>, k: nat)
    requires ValidConfig(c) && IsRun(c, run) && k < |run|
    ensures VotingInv(c, run[k])
  {
    if k == 0 {
      InitVoting(c, run[0]);
    } else {
      RunsKeepVoting(c, run, k - 1);
      var s, s' := run[k - 1], run[k];
      assert Next(c, s, s');
      if i, hashes :| SendTrans(s, s', i, hashes) {
        SendTransKeepsVoting(c, s, s', i, hashes);
      } else if i, e, b :| Deliver(c, s, s', i, e, b) {
        DeliverKeepsVoting(c, s, s', i, e, b);
      }
    }
  }

  // ---------------------------------------------------------------------------------------
  // What the protocol guarantees
  // ---------------------------------------------------------------------------------------

  /** In every reachable state, the chain of one of any two nodes is a prefix of the other's. */
  lemma ChainsArePrefixes(c: Config, run: seq<System>, k: nat, i: nat, j: nat)
    requires ValidConfig(c) && IsRun(c, run) && k < |run| && i < c.nodes && j < c.nodes
    ensures |run[k].nodes| == c.nodes
    ensures run[k].nodes[i].chain <= run[k].nodes[j].chain || run[k].nodes[j].chain <= run[k].nodes[i].chain
  {
    RunsKeepVoting(c, run, k);
    var a, b, blocks := run[k].nodes[i].chain, run[k].nodes[j].chain, run[k].blocks;
    assert NodeInv(run[k].nodes[i], blocks) && NodeInv(run[k].nodes[j], blocks);
    if |a| <= |b| {
      assert a == b[..|a|];
    } else {
      assert b == a[..|b|];
    }
  }

  /**
    The leader proposes at most one block for each height, no proposal is more than one ahead of its chain, and at each
    node the number of stored blocks follows from the round counters.
  */
  lemma OneProposalPerHeight(c: Config, run: seq<System>, k: nat, e: nat, f: nat, i: nat)
    requires ValidConfig(c) && IsRun(c, run) && k < |run| && i < c.nodes && e < |run[k].sent| && f < |run[k].sent|
    requires run[k].sent[e].msg.BlockMsg? && run[k].sent[f].msg.BlockMsg?
    ensures run[k].sent[e].msg.block.index == run[k].sent[f].msg.block.index ==> e == f
    ensures |run[k].nodes| == c.nodes
    ensures run[k].sent[e].msg.block.index <= |run[k].nodes[c.leader].chain|
    ensures var n := run[k].nodes[i];
            |n.chain| - 1 == ROUNDS * ((n.turn.transinblock - FIRST) / STEP) + n.turn.times && n.turn.times < ROUNDS
  {
    RunsKeepVoting(c, run, k);
    var s := run[k];
    assert Proposed(s.sent[e].msg.block, s.blocks) && Proposed(s.sent[f].msg.block, s.blocks);
    assert NodeInv(s.nodes[i], s.blocks);
    assert s.sent[e].msg.block.hash == s.sent[f].msg.block.hash ==> SameProposal(s.sent[e], s.sent[f]);
  }

  /** Node j voted for the block named by hash when its own current block had the hash prev. */
  ghost predicate VotedFor(sent: seq<Event>, j: nat, hash: string, prev: string) {
    exists e :: 0 <= e < |sent| && sent[e].sender == j && sent[e].msg == VoteMsg(hash, true) && sent[e].seen == prev
  }

  ghost predicate VerdictFor(sent: seq<Event>, j: nat, hash: string) {
    exists e :: 0 <= e < |sent| && sent[e].sender == j && sent[e].msg.ReVoteMsg? && sent[e].msg.hash == hash &&
                sent[e].msg.verdict
  }

  /**
    For every stored block but the genesis block, more than three quarters of the nodes sent a positive verdict, and
    more than three quarters of them voted for it, each seeing that it extended its own current block.
  */
  lemma StoredBlocksAreVerified(c: Config, run: seq<System>, k: nat, i: nat, p: nat)
    returns (voters: set<nat>, judges: set<nat>)
    requires ValidConfig(c) && IsRun(c, run) && k < |run| && i < c.nodes
    requires |run[k].nodes| == c.nodes && 0 < p < |run[k].nodes[i].chain|
    ensures 4 * |voters| > 3 * c.nodes && 4 * |judges| > 3 * c.nodes
    ensures forall j :: j in voters + judges ==> j < c.nodes
    ensures var b := run[k].nodes[i].chain[p];
            (forall j :: j in voters ==> VotedFor(run[k].sent, j, b.hash, b.prevHash)) &&
            (forall j :: j in judges ==> VerdictFor(run[k].sent, j, b.hash))
  {
    RunsKeepVoting(c, run, k);
    var s := run[k];
    var b := s.nodes[i].chain[p];
    assert NodeInv(s.nodes[i], s.blocks);
    assert b == s.blocks[p];
    assert b.prevHash == s.blocks[p - 1].hash;
    var e;
    judges, e := JudgesOf(c, s, b.hash);
    voters := VotersOf(c, s, e, b.hash, p);
  }

  /** The nodes with a positive verdict on an endorsed block, and one of these verdicts. */
  lemma JudgesOf(c: Config, s: System, hash: string) returns (judges: set<nat>, e: nat)
    requires VotingInv(c, s) && Endorsed(c.nodes, s.sent, hash)
    ensures 4 * |judges| > 3 * c.nodes
    ensures forall j :: j in judges ==> j < c.nodes && VerdictFor(s.sent, j, hash)
    ensures e < |s.sent| && s.sent[e].msg.ReVoteMsg? && s.sent[e].msg.hash == hash && s.sent[e].msg.verdict
  {
    var verdicts: seq<ReVote> :| AllVerdicts(c.nodes, s.sent, verdicts, hash) &&
                                 MoreThanThreeQuarters(CountVerdicts(verdicts), c.nodes);
    VerdictSendersCard(s.sent, verdicts, hash);
    judges := VerdictSenders(s.sent, verdicts);
    forall j | j in judges
      ensures j < c.nodes && VerdictFor(s.sent, j, hash)
    {
      var q :| 0 <= q < |verdicts| && IsVerdict(s.sent, verdicts[q]) && verdicts[q].verdict &&
               s.sent[verdicts[q].id].sender == j;
      var ev := s.sent[verdicts[q].id];
    }
    var j :| j in judges;
    e :| 0 <= e < |s.sent| && s.sent[e].sender == j && s.sent[e].msg.ReVoteMsg? && s.sent[e].msg.hash == hash &&
         s.sent[e].msg.verdict;
  }

  /** Behind a positive verdict stand the votes of more than three quarters of the nodes. */
  lemma VotersOf(c: Config, s: System, e: nat, hash: string, p: nat) returns (voters: set<nat>)
    requires VotingInv(c, s) && e < |s.sent| && s.sent[e].msg.ReVoteMsg? && s.sent[e].msg.hash == hash
    requires s.sent[e].msg.verdict && 0 < p < |s.blocks| && s.blocks[p].hash == hash
    ensures 4 * |voters| > 3 * c.nodes
    ensures forall j :: j in voters ==> j < c.nodes && VotedFor(s.sent, j, hash, s.blocks[p].prevHash)
  {
    var votes := s.sent[e].msg.votes;
    SendersCard(s.sent, votes, hash, true);
    voters := Senders(s.sent, votes, true);
    forall j | j in voters
      ensures j < c.nodes && VotedFor(s.sent, j, hash, s.blocks[p].prevHash)
    {
      var q :| 0 <= q < |votes| && IsVote(s.sent, votes[q]) && votes[q].vote && s.sent[votes[q].id].sender == j;
      var ev := s.sent[votes[q].id];
      assert Extends(s.blocks, hash, ev.seen);
      var m :| 0 < m < |s.blocks| && s.blocks[m].hash == hash && s.blocks[m].prevHash == ev.seen;
      assert m == p;
    }
  }

  /** Each node sends at most one vote and at most one verdict on a block. */
  lemma OneVoteAndVerdictEach(c: Config, run: seq<System>, k: nat, e: nat, f: nat)
    requires ValidConfig(c) && IsRun(c, run) && k < |run| && e < |run[k].sent| && f < |run[k].sent|
    requires run[k].sent[e].sender == run[k].sent[f].sender
    ensures SameVote(run[k].sent[e], run[k].sent[f]) || SameVerdict(run[k].sent[e], run[k].sent[f]) ==> e == f
  {
    RunsKeepVoting(c, run, k);
  }
}
