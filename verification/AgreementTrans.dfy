/** Which transactions get into the blocks of a run, and which the announcements of the nodes have in common. */
module AgreementTrans {
  import opened Agreement

  /** Some node has announced the transaction. */
  ghost predicate Announced(sent: seq<Event>, h: string) {
    exists e :: 0 <= e < |sent| && sent[e].msg.TransMsg? && h in sent[e].msg.hashes
  }

  ghost predicate CollectionAnnounced(ts: seq<TransHash>, sent: seq<Event>) {
    forall h :: h in Union(ts) ==> Announced(sent, h)
  }

  ghost predicate BlockAnnounced(b: Block, sent: seq<Event>) {
    && (forall j, k :: 0 <= j < k < |b.tx| ==> b.tx[j] != b.tx[k])
    && (forall h :: h in b.tx ==> Announced(sent, h))
  }

  /** All collections and all blocks that were proposed consist of announced transactions. */
  ghost predicate TransInv(s: System) {
    && (forall i, t :: 0 <= i < |s.nodes| && t in s.nodes[i].trans ==> CollectionAnnounced(s.nodes[i].trans[t], s.sent))
    && (forall k :: 0 < k < |s.blocks| ==> BlockAnnounced(s.blocks[k], s.sent))
  }

  lemma StaysAnnounced(sent: seq<Event>, more: seq<Event>, h: string)
    requires Announced(sent, h)
    ensures Announced(sent + more, h)
  {
    var e :| 0 <= e < |sent| && sent[e].msg.TransMsg? && h in sent[e].msg.hashes;
    assert (sent + more)[e] == sent[e];
  }

  lemma CollectionStays(ts: seq<TransHash>, sent: seq<Event>, more: seq<Event>)
    requires CollectionAnnounced(ts, sent)
    ensures CollectionAnnounced(ts, sent + more)
  {
    forall h | h in Union(ts)
      ensures Announced(sent + more, h)
    {
      StaysAnnounced(sent, more, h);
    }
  }

  lemma BlockStays(b: Block, sent: seq<Event>, more: seq<Event>)
    requires BlockAnnounced(b, sent)
    ensures BlockAnnounced(b, sent + more)
  {
    forall h | h in b.tx
      ensures Announced(sent + more, h)
    {
      StaysAnnounced(sent, more, h);
    }
  }

  lemma EntryAnnounced(ts: seq<TransHash>, sent: seq<Event>, e: nat)
    requires CollectionAnnounced(ts, sent) && e < |sent| && sent[e].msg.TransMsg?
    ensures CollectionAnnounced(ts + [TransHash(sent[e].msg.blockHash, sent[e].msg.hashes)], sent)
  {
    var t := TransHash(sent[e].msg.blockHash, sent[e].msg.hashes);
    assert (ts + [t])[..|ts|] == ts;
  }

  lemma NothingCollected(sent: seq<Event>)
    ensures CollectionAnnounced([], sent)
  {
  }

  /** No handler but that of announcements touches the collections. */
  lemma HandledCollections(c: Config, s: System, i: nat, e: nat, b: Block, t: Turn)
    requires TransInv(s) && i < |s.nodes| && e < |s.sent|
    requires t in Handle(c, s, i, e, b).0.trans
    ensures CollectionAnnounced(Handle(c, s, i, e, b).0.trans[t], s.sent)
  {
    hide CollectionAnnounced;
    hide BlockAnnounced;
    var n := s.nodes[i];
    if s.sent[e].msg.TransMsg? && t == n.turn {
      var ts := if t in n.trans then n.trans[t] else [];
      NothingCollected(s.sent);
      EntryAnnounced(ts, s.sent, e);
    }
  }

  lemma StepKeepsTrans(c: Config, s: System, s': System)
    requires TransInv(s) && Next(c, s, s')
    ensures TransInv(s')
  {
    hide Handle;
    if s' != s {
      if i, hashes :| SendTrans(s, s', i, hashes) {
        AllStay(s, s'.sent[|s.sent|..]);
      } else {
        var i, e, b :| Deliver(c, s, s', i, e, b);
        DeliverKeepsTrans(c, s, s', i, e, b);
      }
    }
  }

  lemma AllStay(s: System, more: seq<Event>)
    requires TransInv(s)
    ensures TransInv(s.(sent := s.sent + more))
  {
    hide CollectionAnnounced;
    hide BlockAnnounced;
    forall i, t | 0 <= i < |s.nodes| && t in s.nodes[i].trans
      ensures CollectionAnnounced(s.nodes[i].trans[t], s.sent + more)
    {
      CollectionStays(s.nodes[i].trans[t], s.sent, more);
    }
    forall k | 0 < k < |s.blocks|
      ensures BlockAnnounced(s.blocks[k], s.sent + more)
    {
      BlockStays(s.blocks[k], s.sent, more);
    }
  }

  lemma DeliverKeepsTrans(c: Config, s: System, s': System, i: nat, e: nat, b: Block)
    requires TransInv(s) && Deliver(c, s, s', i, e, b)
    ensures TransInv(s')
  {
    hide Handle;
    hide CollectionAnnounced;
    hide BlockAnnounced;
    hide Gathered;
    var (n', out) := Handle(c, s, i, e, b);
    forall t | t in n'.trans
      ensures CollectionAnnounced(n'.trans[t], s.sent)
    {
      HandledCollections(c, s, i, e, b, t);
    }
    if out == [BlockMsg(b)] {
      GatheredIsAnnounced(b, n', s.sent);
    }
    var mid := System(s.nodes[i := n'], s.sent, s.delivered, s'.blocks);
    assert TransInv(mid);
    AllStay(mid, Broadcasts(i, s.nodes[i].curr.hash, out));
  }

  lemma GatheredIsAnnounced(b: Block, n: Node, sent: seq<Event>)
    requires Gathered(b, n) && (forall t :: t in n.trans ==> CollectionAnnounced(n.trans[t], sent))
    ensures BlockAnnounced(b, sent)
  {
  }

  /** In every state of every run, whatever is in a proposed block was announced by some node, and is in it once. */
  lemma {:induction false} TransactionsWereAnnounced(c: Config, run: seq<System>, k: nat)
    requires IsRun(c, run) && k < |run|
    ensures TransInv(run[k])
  {
    if k > 0 {
      TransactionsWereAnnounced(c, run, k - 1);
      StepKeepsTrans(c, run[k - 1], run[k]);
    }
  }

  /** The same for the blocks that any node has stored. */
  lemma StoredWereAnnounced(c: Config, run: seq<System>, k: nat, i: nat, j: nat)
    requires ValidConfig(c) && IsRun(c, run) && k < |run|
    requires i < |run[k].nodes| && 0 < j < |run[k].nodes[i].chain|
    ensures BlockAnnounced(run[k].nodes[i].chain[j], run[k].sent)
  {
    TransactionsWereAnnounced(c, run, k);
    RunsKeepVoting(c, run, k);
  }

  // ---------------------------------------------------------------------------------------
  // What all announcements have in common
  // ---------------------------------------------------------------------------------------

  predicate InAll(ts: seq<TransHash>, h: string) {
    forall i :: 0 <= i < |ts| ==> h in ts[i].hashes
  }

  lemma {:induction false} InUnion(ts: seq<TransHash>, h: string)
    ensures h in Union(ts) <==> exists i :: 0 <= i < |ts| && h in ts[i].hashes
  {
    if ts != [] {
      InUnion(ts[..|ts| - 1], h);
      var last := ts[|ts| - 1];
      if h in Union(ts) && h !in last.hashes {
        var i :| 0 <= i < |ts| - 1 && h in ts[..|ts| - 1][i].hashes;
        assert h in ts[i].hashes;
      }
      if i :| 0 <= i < |ts| && h in ts[i].hashes {
        assert i < |ts| - 1 ==> h in ts[..|ts| - 1][i].hashes;
      }
    }
  }

  /** The set that is called common is what all entries have in common exactly if their hashes are the same. */
  lemma UnionIsCommon(ts: seq<TransHash>)
    requires ts != []
    ensures (forall h :: h in Union(ts) <==> InAll(ts, h))
       <==> (forall i, j, h :: 0 <= i < |ts| && 0 <= j < |ts| && h in ts[i].hashes ==> h in ts[j].hashes)
  {
    if forall h :: h in Union(ts) <==> InAll(ts, h) {
      forall i, j, h | 0 <= i < |ts| && 0 <= j < |ts| && h in ts[i].hashes
        ensures h in ts[j].hashes
      {
        InUnion(ts, h);
        assert InAll(ts, h);
      }
    }
    if forall i, j, h :: 0 <= i < |ts| && 0 <= j < |ts| && h in ts[i].hashes ==> h in ts[j].hashes {
      forall h
        ensures h in Union(ts) <==> InAll(ts, h)
      {
        InUnion(ts, h);
        assert InAll(ts, h) ==> h in ts[0].hashes;
      }
    }
  }

  /** It is not when one node has announced a transaction that another has not. */
  lemma UnionIsMore(h: string)
    ensures var ts := [TransHash("", [h]), TransHash("", [])];
            h in Union(ts) && !InAll(ts, h)
  {
    var ts := [TransHash("", [h]), TransHash("", [])];
    assert h in ts[0].hashes && h !in ts[1].hashes;
    InUnion(ts, h);
  }
}
