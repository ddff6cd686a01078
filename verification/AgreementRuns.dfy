/**
  Which runs of the agreement protocol get anywhere: with a single node none does, and with more there is one in
  every node stores as many blocks as one likes.
*/
module AgreementRuns {
  import opened Agreement

  // ---------------------------------------------------------------------------------------
  // A single node
  // ---------------------------------------------------------------------------------------

  /** Nothing but transaction hashes has been sent; a collection that was started is not empty. */
  ghost predicate Stuck(c: Config, s: System) {
    && |s.nodes| == 1 && s.blocks == [c.genesis] && s.nodes[0].chain == [c.genesis]
    && (forall t :: t in s.nodes[0].trans ==> s.nodes[0].trans[t] != [])
    && (forall e :: 0 <= e < |s.sent| ==> s.sent[e].msg.TransMsg?)
  }

  /** With a single node nothing is ever proposed, voted on or stored: the gates wait for a second entry. */
  lemma {:induction false} SingleNodeStuck(c: Config, run: seq<System>, k: nat)
    requires c.nodes == 1 && IsRun(c, run) && k < |run|
    ensures Stuck(c, run[k])
  {
    if k > 0 {
      SingleNodeStuck(c, run, k - 1);
      assert Next(c, run[k - 1], run[k]);
    }
  }

  // ---------------------------------------------------------------------------------------
  // One round of two nodes or more
  // ---------------------------------------------------------------------------------------

  /** Where a round starts: how much has been sent, the blocks that all nodes have stored, and their turn. */
  datatype Base = Base(sent: nat, blocks: seq<Block>, turn: Turn)

  function Prev(B: Base): Block
    requires B.blocks != []
  {
    B.blocks[|B.blocks| - 1]
  }

  predicate ValidBase(B: Base) {
    B.blocks != [] && Prev(B).hash != "" && ValidTurn(B.turn)
  }

  /** A hash longer than those of all blocks. */
  function LongHash(blocks: seq<Block>): string {
    if blocks == [] then "1" else LongHash(blocks[..|blocks| - 1]) + blocks[|blocks| - 1].hash
  }

  /** The block of the round. */
  function Fresh(B: Base): Block
    requires B.blocks != []
  {
    Block(Prev(B).index + 1, "", Prev(B).hash, "", "Signature", LongHash(B.blocks), [])
  }

  /** What the environment would generate next; it is not proposed. */
  function Spare(B: Base): Block
    requires B.blocks != []
  {
    Fresh(B).(hash := LongHash(B.blocks) + "2")
  }

  lemma {:induction false} LongHashIsLong(blocks: seq<Block>)
    ensures |LongHash(blocks)| > 0 && forall k :: 0 <= k < |blocks| ==> |blocks[k].hash| < |LongHash(blocks)|
  {
    if blocks != [] {
      var rest := blocks[..|blocks| - 1];
      LongHashIsLong(rest);
      forall k | 0 <= k < |blocks|
        ensures |blocks[k].hash| < |LongHash(blocks)|
      {
        assert k < |blocks| - 1 ==> blocks[k] == rest[k];
      }
    }
  }

  /** The hashes of the blocks are different. */
  lemma OwnHashes(B: Base)
    requires B.blocks != []
    ensures Fresh(B).hash != "" && Spare(B).hash != "" && Fresh(B).hash != Spare(B).hash
    ensures forall k :: 0 <= k < |B.blocks| ==> B.blocks[k].hash != Fresh(B).hash && B.blocks[k].hash != Spare(B).hash
  {
    LongHashIsLong(B.blocks);
    assert |Spare(B).hash| == |Fresh(B).hash| + 1;
  }

  function Last(run: seq<System>): System
    requires run != []
  {
    run[|run| - 1]
  }

  /** The state after a delivery. */
  function Delivered(c: Config, s: System, i: nat, e: nat, b: Block): System
    requires i < |s.nodes| && e < |s.sent|
  {
    var (n', out) := Handle(c, s, i, e, b);
    System(s.nodes[i := n'], s.sent + Broadcasts(i, s.nodes[i].curr.hash, out), s.delivered + {(e, i)},
           s.blocks + if out == [BlockMsg(b)] then [b] else [])
  }

  /** A delivery after which no block is broadcast. */
  lemma Delivers(c: Config, s: System, i: nat, e: nat, b: Block) returns (s': System)
    requires i < |s.nodes| && e < |s.sent| && (e, i) !in s.delivered && !s.sent[e].msg.TransMsg?
    requires Generated(s.nodes[i].curr, b) && b.hash != ""
    requires forall k :: 0 <= k < |s.blocks| ==> s.blocks[k].hash != b.hash
    ensures Next(c, s, s')
    ensures
      var (n', out) := Handle(c, s, i, e, b);
      s' == System(s.nodes[i := n'], s.sent + Broadcasts(i, s.nodes[i].curr.hash, out), s.delivered + {(e, i)},
                   s.blocks)
  {
    hide ReceiveReVote;
    s' := Delivered(c, s, i, e, b);
    assert Deliver(c, s, s', i, e, b);
  }

  lemma Longer(c: Config, run: seq<System>, s: System)
    requires IsRun(c, run) && Next(c, Last(run), s)
    ensures IsRun(c, run + [s]) && Last(run + [s]) == s
  {
    var r := run + [s];
    forall k | 0 < k < |r|
      ensures Next(c, r[k - 1], r[k])
    {
      if k < |run| {
        assert Next(c, run[k - 1], run[k]);
      }
    }
  }

  /** What a collection has under a key. */
  ghost predicate Has<K, V>(m: map<K, seq<V>>, k: K, vs: seq<V>) {
    if vs == [] then k !in m else k in m && m[k] == vs
  }

  lemma HasMore<K, V>(m: map<K, seq<V>>, k: K, vs: seq<V>, v: V, nodes: nat)
    requires Has(m, k, vs) && nodes >= 2
    ensures Has(Append(m, k, v), k, vs + [v]) && Complete(m, k, nodes) == (|vs| + 1 == nodes)
  {
    assert [] + [v] == [v];
  }

  /** A node that works on the block of the round. */
  predicate Working(B: Base, n: Node)
    requires B.blocks != []
  {
    n.curr == Prev(B) && n.turn == B.turn && n.chain == B.blocks
  }

  /** A node that has nothing of the round. */
  predicate Idle(B: Base, n: Node)
    requires B.blocks != []
  {
    && Working(B, n) && (n.tmp == Prev(B) || n.tmp == NO_BLOCK)
    && KeyOf(B) !in n.round1 && KeyOf(B) !in n.round2
  }

  /** All entries of a node's collections are for turns up to a position. */
  ghost predicate UpTo(n: Node, p: int) {
    && (forall t :: t in n.trans ==> Position(t) <= p)
    && (forall k :: k in n.round1 ==> Position(k.turn) <= p)
    && (forall k :: k in n.round2 ==> Position(k.turn) <= p)
  }

  ghost predicate Common(c: Config, B: Base, s: System) {
    && ValidConfig(c) && c.nodes >= 2 && ValidBase(B) && |s.nodes| == c.nodes
    && (forall i, e :: (e, i) in s.delivered ==> e < |s.sent|)
    && (forall i :: 0 <= i < c.nodes ==> s.nodes[i].leader == (i == c.leader) && UpTo(s.nodes[i], Position(B.turn)))
  }

  /** All nodes have stored the same blocks, and nothing has happened in their turn. */
  ghost predicate Level(c: Config, B: Base, s: System) {
    && Common(c, B, s) && |s.sent| == B.sent && s.blocks == B.blocks && Position(B.turn) == |B.blocks| - 1
    && forall i :: 0 <= i < c.nodes ==> Idle(B, s.nodes[i]) && B.turn !in s.nodes[i].trans
  }

  /** The leader has sent some announcements, and k of them have reached itself. */
  ghost predicate Heard(c: Config, B: Base, s: System, sent: nat, k: nat) {
    && Common(c, B, s) && s.blocks == B.blocks && |s.sent| == B.sent + sent
    && (forall i :: 0 <= i < c.nodes ==> Idle(B, s.nodes[i]))
    && (forall e :: B.sent <= e < B.sent + sent ==>
          s.sent[e].msg.TransMsg? && s.sent[e].msg.blockHash == Prev(B).hash)
    && (forall e :: B.sent + k <= e ==> (e, c.leader) !in s.delivered)
    && (forall e, i :: B.sent + sent <= e ==> (e, i) !in s.delivered)
    && if k == 0 then B.turn !in s.nodes[c.leader].trans
       else B.turn in s.nodes[c.leader].trans && |s.nodes[c.leader].trans[B.turn]| == k
  }

  lemma Ask(c: Config, B: Base, run: seq<System>) returns (longer: seq<System>)
    requires IsRun(c, run) && Level(c, B, Last(run))
    ensures IsRun(c, longer) && Heard(c, B, Last(longer), c.nodes, 0)
  {
    longer := run;
    var k := 0;
    while k < c.nodes
      invariant 0 <= k <= c.nodes && IsRun(c, longer) && Heard(c, B, Last(longer), k, 0)
    {
      var s' := AskOnce(c, B, Last(longer), k);
      Longer(c, longer, s');
      longer, k := longer + [s'], k + 1;
    }
  }

  lemma AskOnce(c: Config, B: Base, s: System, k: nat) returns (s': System)
    requires Heard(c, B, s, k, 0)
    ensures Next(c, s, s') && Heard(c, B, s', k + 1, 0)
  {
    s' := s.(sent := s.sent + [Event(c.leader, Prev(B).hash, TransMsg(Prev(B).hash, []))]);
    assert SendTrans(s, s', c.leader, []);
  }

  lemma Hear(c: Config, B: Base, run: seq<System>) returns (longer: seq<System>)
    requires IsRun(c, run) && Heard(c, B, Last(run), c.nodes, 0)
    ensures IsRun(c, longer) && Heard(c, B, Last(longer), c.nodes, c.nodes - 1)
  {
    longer := run;
    var k := 0;
    while k < c.nodes - 1
      invariant 0 <= k < c.nodes && IsRun(c, longer) && Heard(c, B, Last(longer), c.nodes, k)
    {
      var s' := HearOnce(c, B, Last(longer), k);
      Longer(c, longer, s');
      longer, k := longer + [s'], k + 1;
    }
  }

  lemma HearOnce(c: Config, B: Base, s: System, k: nat) returns (s': System)
    requires Heard(c, B, s, c.nodes, k) && k < c.nodes - 1
    ensures Next(c, s, s') && Heard(c, B, s', c.nodes, k + 1)
  {
    OwnHashes(B);
    hide LongHash;
    s' := Delivered(c, s, c.leader, B.sent + k, Fresh(B));
    assert Deliver(c, s, s', c.leader, B.sent + k, Fresh(B));
  }

  /** The block has been proposed, and k nodes have voted for it. */
  ghost predicate Voted(c: Config, B: Base, s: System, k: nat) {
    && Common(c, B, s) && s.blocks == B.blocks + [Fresh(B)] && |s.sent| == B.sent + c.nodes + 1 + k
    && s.sent[B.sent + c.nodes].msg == BlockMsg(Fresh(B))
    && (forall i :: 0 <= i < k && i < c.nodes ==> Pending(B, s.nodes[i]))
    && (forall i :: 0 <= i < c.nodes ==> KeyOf(B) !in s.nodes[i].round1 && KeyOf(B) !in s.nodes[i].round2)
    && (forall i :: k <= i < c.nodes ==> Idle(B, s.nodes[i]))
    && (forall e :: B.sent + c.nodes < e <= B.sent + c.nodes + k ==> s.sent[e].msg == VoteMsg(Fresh(B).hash, true))
    && (forall e, i :: e == B.sent + c.nodes && k <= i ==> (e, i) !in s.delivered)
    && (forall e, i :: B.sent + c.nodes < e ==> (e, i) !in s.delivered)
  }

  predicate Pending(B: Base, n: Node)
    requires B.blocks != []
  {
    Working(B, n) && n.tmp == Fresh(B)
  }

  function KeyOf(B: Base): Key
    requires B.blocks != []
  {
    Key(B.turn, Fresh(B).hash)
  }

  lemma Propose(c: Config, B: Base, s: System) returns (s': System)
    requires c.nodes >= 2 && Heard(c, B, s, c.nodes, c.nodes - 1)
    ensures Next(c, s, s') && Voted(c, B, s', 0)
  {
    OwnHashes(B);
    hide LongHash;
    var e := B.sent + c.nodes - 1;
    s' := Delivered(c, s, c.leader, e, Fresh(B));
    assert Deliver(c, s, s', c.leader, e, Fresh(B));
    assert s'.sent == s.sent + [Event(c.leader, Prev(B).hash, BlockMsg(Fresh(B)))];
  }

  lemma VoteOnce(c: Config, B: Base, s: System, k: nat) returns (s': System)
    requires Voted(c, B, s, k) && k < c.nodes
    ensures Next(c, s, s') && Voted(c, B, s', k + 1)
  {
    OwnHashes(B);
    hide LongHash;
    s' := Delivered(c, s, k, B.sent + c.nodes, Spare(B));
    assert Deliver(c, s, s', k, B.sent + c.nodes, Spare(B));
    assert s'.sent == s.sent + [Event(k, Prev(B).hash, VoteMsg(Fresh(B).hash, true))];
  }

  lemma AllVote(c: Config, B: Base, run: seq<System>) returns (longer: seq<System>)
    requires IsRun(c, run) && Voted(c, B, Last(run), 0)
    ensures IsRun(c, longer) && Voted(c, B, Last(longer), c.nodes)
  {
    hide Next;
    longer := run;
    var k := 0;
    while k < c.nodes
      invariant 0 <= k <= c.nodes && IsRun(c, longer) && Voted(c, B, Last(longer), k)
    {
      var s' := VoteOnce(c, B, Last(longer), k);
      Longer(c, longer, s');
      longer, k := longer + [s'], k + 1;
    }
  }

  // ---------------------------------------------------------------------------------------
  // The verdicts
  // ---------------------------------------------------------------------------------------

  /** The votes of the first k nodes on the block. */
  function VotesOf(c: Config, B: Base, k: nat): seq<Vote>
    requires B.blocks != []
  {
    seq(k, j requires 0 <= j < k => Vote(B.sent + c.nodes + 1 + j, Fresh(B).hash, true))
  }

  lemma {:induction false} AllVotesFor(c: Config, B: Base, k: nat)
    requires B.blocks != []
    ensures CountVotes(VotesOf(c, B, k)) == k
  {
    if k > 0 {
      AllVotesFor(c, B, k - 1);
      assert VotesOf(c, B, k)[..k - 1] == VotesOf(c, B, k - 1);
    }
  }

  /** All nodes before node i have drawn their verdict, and node i has k votes. */
  ghost predicate Tallied(c: Config, B: Base, s: System, i: nat, k: nat) {
    && Common(c, B, s) && s.blocks == B.blocks + [Fresh(B)] && |s.sent| == B.sent + 2 * c.nodes + 1 + i
    && (forall j :: 0 <= j < c.nodes ==> Pending(B, s.nodes[j]) && KeyOf(B) !in s.nodes[j].round2)
    && (forall j :: i < j < c.nodes ==> KeyOf(B) !in s.nodes[j].round1)
    && (i < c.nodes ==> Has(s.nodes[i].round1, KeyOf(B), VotesOf(c, B, k)))
    && (forall e :: B.sent + c.nodes < e <= B.sent + 2 * c.nodes ==> s.sent[e].msg == VoteMsg(Fresh(B).hash, true))
    && (forall e :: B.sent + 2 * c.nodes < e <= B.sent + 2 * c.nodes + i ==>
          s.sent[e].msg == ReVoteMsg(VotesOf(c, B, c.nodes), Fresh(B).hash, true))
    && (forall e, j :: B.sent + c.nodes < e && i < j ==> (e, j) !in s.delivered)
    && (forall e :: B.sent + c.nodes + 1 + k <= e ==> (e, i) !in s.delivered)
    && (forall e, j :: B.sent + 2 * c.nodes < e ==> (e, j) !in s.delivered)
  }

  /** A node that gets the votes in order; with the last one it draws its verdict. */
  lemma CountsVote(c: Config, B: Base, n: Node, k: nat)
    requires B.blocks != [] && n.turn == B.turn && Has(n.round1, KeyOf(B), VotesOf(c, B, k))
    requires k < c.nodes && c.nodes >= 2
    ensures
      var (n', out) := ReceiveVote(n, Vote(B.sent + c.nodes + 1 + k, Fresh(B).hash, true), c.nodes);
      && n' == n.(round1 := n'.round1) && Has(n'.round1, KeyOf(B), VotesOf(c, B, k + 1))
      && (forall key :: key in n'.round1 ==> key in n.round1 || key == KeyOf(B))
      && out == if k + 1 == c.nodes then [ReVoteMsg(VotesOf(c, B, c.nodes), Fresh(B).hash, true)] else []
  {
    var v := Vote(B.sent + c.nodes + 1 + k, Fresh(B).hash, true);
    AllVotesFor(c, B, c.nodes);
    HasMore(n.round1, KeyOf(B), VotesOf(c, B, k), v, c.nodes);
    assert VotesOf(c, B, k) + [v] == VotesOf(c, B, k + 1);
  }

  lemma TallyOnce(c: Config, B: Base, s: System, i: nat, k: nat) returns (s': System)
    requires Tallied(c, B, s, i, k) && i < c.nodes && k < c.nodes
    ensures Next(c, s, s')
    ensures if k + 1 < c.nodes then Tallied(c, B, s', i, k + 1) else Tallied(c, B, s', i + 1, 0)
  {
    hide Next;
    hide ReceiveVote;
    hide ReceiveReVote;
    hide Position;
    hide VotesOf;
    hide LongHash;
    OwnHashes(B);
    CountsVote(c, B, s.nodes[i], k);
    NoVotes(c, B);
    var e := B.sent + c.nodes + 1 + k;
    s' := Delivers(c, s, i, e, Spare(B));
  }

  lemma NoVotes(c: Config, B: Base)
    requires B.blocks != []
    ensures VotesOf(c, B, 0) == []
  {
  }

  lemma Tally(c: Config, B: Base, run: seq<System>) returns (longer: seq<System>)
    requires IsRun(c, run) && Voted(c, B, Last(run), c.nodes)
    ensures IsRun(c, longer) && Tallied(c, B, Last(longer), c.nodes, 0)
  {
    hide Next;
    longer := run;
    var i, k := 0, 0;
    while i < c.nodes
      invariant 0 <= i <= c.nodes && 0 <= k && (k < c.nodes || i == c.nodes) && (i == c.nodes ==> k == 0)
      invariant IsRun(c, longer) && Tallied(c, B, Last(longer), i, k)
      decreases c.nodes - i, c.nodes - k
    {
      var s' := TallyOnce(c, B, Last(longer), i, k);
      Longer(c, longer, s');
      longer := longer + [s'];
      i, k := if k + 1 < c.nodes then i else i + 1, if k + 1 < c.nodes then k + 1 else 0;
    }
  }

  // ---------------------------------------------------------------------------------------
  // The block is stored
  // ---------------------------------------------------------------------------------------

  /** The verdicts of the first k nodes. */
  function VerdictsOf(c: Config, B: Base, k: nat): seq<ReVote>
    requires B.blocks != []
  {
    seq(k, j requires 0 <= j < k =>
      ReVote(B.sent + 2 * c.nodes + 1 + j, VotesOf(c, B, c.nodes), Fresh(B).hash, true))
  }

  lemma {:induction false} AllVerdictsFor(c: Config, B: Base, k: nat)
    requires B.blocks != []
    ensures CountVerdicts(VerdictsOf(c, B, k)) == k
  {
    if k > 0 {
      AllVerdictsFor(c, B, k - 1);
      assert VerdictsOf(c, B, k)[..k - 1] == VerdictsOf(c, B, k - 1);
    }
  }

  /** A node that has stored the block. */
  predicate Stored(B: Base, n: Node)
    requires B.blocks != []
  {
    n.curr == Fresh(B) && n.tmp == Fresh(B) && n.chain == B.blocks + [Fresh(B)] && n.turn == NextTurn(B.turn)
  }

  /** All nodes before node i have stored the block, and node i has k of the verdicts. */
  ghost predicate Judged(c: Config, B: Base, s: System, i: nat, k: nat) {
    && Common(c, B, s) && s.blocks == B.blocks + [Fresh(B)] && |s.sent| == B.sent + 3 * c.nodes + 1
    && (forall j :: 0 <= j < i && j < c.nodes ==> Stored(B, s.nodes[j]))
    && (forall j :: i <= j < c.nodes ==> Pending(B, s.nodes[j]))
    && (forall j :: i < j < c.nodes ==> KeyOf(B) !in s.nodes[j].round2)
    && (i < c.nodes ==> Has(s.nodes[i].round2, KeyOf(B), VerdictsOf(c, B, k)))
    && (forall e :: B.sent + 2 * c.nodes < e <= B.sent + 3 * c.nodes ==>
          s.sent[e].msg == ReVoteMsg(VotesOf(c, B, c.nodes), Fresh(B).hash, true))
    && (forall e, j :: B.sent + 2 * c.nodes < e && i < j ==> (e, j) !in s.delivered)
    && (forall e :: B.sent + 2 * c.nodes + 1 + k <= e ==> (e, i) !in s.delivered)
  }

  /** A node that gets the verdicts in order; with the last one it stores the block. */
  lemma CountsVerdict(c: Config, B: Base, n: Node, k: nat)
    requires B.blocks != [] && Pending(B, n) && Has(n.round2, KeyOf(B), VerdictsOf(c, B, k))
    requires k < c.nodes && c.nodes >= 2
    ensures
      var rv := ReVote(B.sent + 2 * c.nodes + 1 + k, VotesOf(c, B, c.nodes), Fresh(B).hash, true);
      var n' := ReceiveReVote(n, rv, c.nodes);
      && n'.leader == n.leader && n'.trans == n.trans && n'.round1 == n.round1
      && Has(n'.round2, KeyOf(B), VerdictsOf(c, B, k + 1))
      && (forall key :: key in n'.round2 ==> key in n.round2 || key == KeyOf(B))
      && if k + 1 == c.nodes then Stored(B, n') else Pending(B, n')
  {
    var rv := ReVote(B.sent + 2 * c.nodes + 1 + k, VotesOf(c, B, c.nodes), Fresh(B).hash, true);
    OwnHashes(B);
    AllVerdictsFor(c, B, c.nodes);
    HasMore(n.round2, KeyOf(B), VerdictsOf(c, B, k), rv, c.nodes);
    assert VerdictsOf(c, B, k) + [rv] == VerdictsOf(c, B, k + 1);
  }

  lemma JudgeOnce(c: Config, B: Base, s: System, i: nat, k: nat) returns (s': System)
    requires Judged(c, B, s, i, k) && i < c.nodes && k < c.nodes
    ensures Next(c, s, s')
    ensures if k + 1 < c.nodes then Judged(c, B, s', i, k + 1) else Judged(c, B, s', i + 1, 0)
  {
    hide Next;
    hide ReceiveVote;
    hide ReceiveReVote;
    hide Position;
    hide VerdictsOf;
    hide VotesOf;
    hide LongHash;
    OwnHashes(B);
    CountsVerdict(c, B, s.nodes[i], k);
    NoVerdicts(c, B);
    var e := B.sent + 2 * c.nodes + 1 + k;
    s' := Delivers(c, s, i, e, Spare(B));
  }

  lemma NoVerdicts(c: Config, B: Base)
    requires B.blocks != []
    ensures VerdictsOf(c, B, 0) == []
  {
  }

  lemma Judge(c: Config, B: Base, run: seq<System>) returns (longer: seq<System>)
    requires IsRun(c, run) && Tallied(c, B, Last(run), c.nodes, 0)
    ensures IsRun(c, longer) && Judged(c, B, Last(longer), c.nodes, 0)
  {
    hide Next;
    NoVerdicts(c, B);
    longer := run;
    var i, k := 0, 0;
    while i < c.nodes
      invariant 0 <= i <= c.nodes && 0 <= k && (k < c.nodes || i == c.nodes) && (i == c.nodes ==> k == 0)
      invariant IsRun(c, longer) && Judged(c, B, Last(longer), i, k)
      decreases c.nodes - i, c.nodes - k
    {
      var s' := JudgeOnce(c, B, Last(longer), i, k);
      Longer(c, longer, s');
      longer := longer + [s'];
      i, k := if k + 1 < c.nodes then i else i + 1, if k + 1 < c.nodes then k + 1 else 0;
    }
  }

  /** The round is over, and the next one can start. */
  lemma NextLevel(c: Config, B: Base, s: System)
    requires Judged(c, B, s, c.nodes, 0) && Position(B.turn) == |B.blocks| - 1
    ensures Level(c, Base(|s.sent|, B.blocks + [Fresh(B)], NextTurn(B.turn)), s)
  {
    NextTurnPosition(B.turn);
    OwnHashes(B);
  }

  lemma Round(c: Config, B: Base, run: seq<System>) returns (longer: seq<System>, B': Base)
    requires IsRun(c, run) && Level(c, B, Last(run))
    ensures IsRun(c, longer) && Level(c, B', Last(longer)) && |B'.blocks| == |B.blocks| + 1
    ensures exists e :: 0 <= e < |Last(longer).sent| && Last(longer).sent[e].msg.ReVoteMsg?
  {
    hide Level;
    hide Heard;
    hide Voted;
    hide Tallied;
    hide Next;
    RoundStarted(c, B, run);
    longer := Ask(c, B, run);
    longer := Hear(c, B, longer);
    var s' := Propose(c, B, Last(longer));
    Longer(c, longer, s');
    longer := AllVote(c, B, longer + [s']);
    longer := Tally(c, B, longer);
    longer := Judge(c, B, longer);
    NextLevel(c, B, Last(longer));
    B' := Base(|Last(longer).sent|, B.blocks + [Fresh(B)], NextTurn(B.turn));
    assert Last(longer).sent[B.sent + 3 * c.nodes].msg.ReVoteMsg?;
  }

  lemma RoundStarted(c: Config, B: Base, run: seq<System>)
    requires run != [] && Level(c, B, Last(run))
    ensures Position(B.turn) == |B.blocks| - 1 && c.nodes >= 2
  {
  }

  // ---------------------------------------------------------------------------------------
  // Any number of rounds
  // ---------------------------------------------------------------------------------------

  /** Every node has stored h blocks behind the first, all the same ones, and stands at the turn that follows. */
  ghost predicate AllAt(c: Config, s: System, h: nat) {
    && |s.nodes| == c.nodes
    && forall i :: 0 <= i < c.nodes ==>
         && |s.nodes[i].chain| == h + 1 && s.nodes[i].chain == s.blocks
         && s.nodes[i].turn == Turn(h % 10, 4000 + 200 * (h / 10))
  }

  lemma TurnAt(t: Turn)
    requires ValidTurn(t)
    ensures t == Turn(Position(t) % 10, 4000 + 200 * (Position(t) / 10))
  {
    var q := (t.transinblock - FIRST) / STEP;
    assert t.transinblock == FIRST + STEP * q;
  }

  lemma {:induction false} Rounds(c: Config, h: nat) returns (run: seq<System>, B: Base)
    requires ValidConfig(c) && c.nodes >= 2
    ensures IsRun(c, run) && Level(c, B, Last(run)) && |B.blocks| == h + 1
    ensures h > 0 ==> exists e :: 0 <= e < |Last(run).sent| && Last(run).sent[e].msg.ReVoteMsg?
  {
    if h == 0 {
      var turn := Turn(0, FIRST);
      var nodes := seq(c.nodes, i => Node(i == c.leader, c.genesis, NO_BLOCK, turn, [c.genesis], map[], map[], map[]));
      B := Base(0, [c.genesis], turn);
      run := [System(nodes, [], {}, [c.genesis])];
    } else {
      var r, b := Rounds(c, h - 1);
      run, B := Round(c, b, r);
    }
  }

  /** For every height there is a run at whose end every node has stored that many blocks. */
  lemma EveryHeight(c: Config, h: nat) returns (run: seq<System>)
    requires ValidConfig(c) && c.nodes >= 2
    ensures IsRun(c, run) && AllAt(c, Last(run), h)
  {
    var B;
    run, B := Rounds(c, h);
    TurnAt(B.turn);
  }

  /** A run at whose end some node has stored a block. */
  ghost predicate Stores(c: Config, run: seq<System>) {
    IsRun(c, run) && exists i :: 0 <= i < |Last(run).nodes| && |Last(run).nodes[i].chain| > 1
  }

  /** A run at whose end a block has been proposed, or a vote or verdict sent. */
  ghost predicate Opens(c: Config, run: seq<System>) {
    IsRun(c, run) && exists e :: 0 <= e < |Last(run).sent| && !Last(run).sent[e].msg.TransMsg?
  }

  lemma StoringRun(c: Config) returns (run: seq<System>)
    requires ValidConfig(c) && c.nodes >= 2
    ensures Stores(c, run) && Opens(c, run)
  {
    hide IsRun;
    var B;
    run, B := Rounds(c, 1);
    assert |Last(run).nodes[c.leader].chain| > 1;
    var e :| 0 <= e < |Last(run).sent| && Last(run).sent[e].msg.ReVoteMsg?;
  }

  /** A gate of the protocol can open, and a block can be stored, exactly when there are two nodes or more. */
  lemma TwoNodesNeeded(c: Config)
    requires ValidConfig(c)
    ensures (exists run :: Opens(c, run)) <==> c.nodes >= 2
    ensures (exists run :: Stores(c, run)) <==> c.nodes >= 2
  {
    if c.nodes >= 2 {
      var run := StoringRun(c);
    } else {
      forall run | IsRun(c, run)
        ensures !Opens(c, run) && !Stores(c, run)
      {
        SingleNodeStuck(c, run, |run| - 1);
      }
    }
  }
}
