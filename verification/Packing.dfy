/** How message_queue spreads a list of TLVs over messages: greedily and in order. */
module Packing {
  import opened Bytes
  import opened Tlvs

  /** The size of a message that holds `g`: its type byte and its TLVs. */
  function GroupSize(g: seq<Tlv>): nat {
    if g == [] then 1 else GroupSize(Front(g)) + Last(g).Size()
  }

  /** message_queue::add_TLV on the messages queued so far. */
  function AddToGroups(gs: seq<seq<Tlv>>, t: Tlv): seq<seq<Tlv>>
    requires gs != []
  {
    if GroupSize(Last(gs)) + t.Size() <= CHUNK_SIZE then Front(gs) + [Last(gs) + [t]]
    else gs + [[t]]
  }

  /** The messages of a queue to which `ts` were added one after the other. */
  function Pack(ts: seq<Tlv>): (gs: seq<seq<Tlv>>)
    ensures gs != []
  {
    if ts == [] then [[]] else AddToGroups(Pack(Front(ts)), Last(ts))
  }

  /** The TLV fits in a message of its own. */
  predicate Packable(t: Tlv) { 1 + t.Size() <= CHUNK_SIZE }

  ghost predicate AllPackable(ts: seq<Tlv>) {
    forall t <- ts :: Packable(t)
  }

  lemma {:induction false} EncodedSize(m: Msg)
    ensures |EncodeMsg(m)| == GroupSize(m.tlvs)
    decreases |m.tlvs|
  {
    if m.tlvs != [] {
      EncodedSize(Msg(m.kind, Front(m.tlvs)));
    }
  }

  lemma FlattenSnoc<T>(gs: seq<seq<T>>, g: seq<T>)
    ensures Flatten(gs + [g]) == Flatten(gs) + g
  {
    assert Front(gs + [g]) == gs;
  }

  lemma AddedFlat(gs: seq<seq<Tlv>>, t: Tlv)
    requires gs != []
    ensures Flatten(AddToGroups(gs, t)) == Flatten(gs) + [t]
  {
    FlattenSnoc(gs, [t]);
    FlattenSnoc(Front(gs), Last(gs) + [t]);
    assert Flatten(Front(gs)) + (Last(gs) + [t]) == Flatten(Front(gs)) + Last(gs) + [t];
  }

  /** Nothing is lost, repeated or reordered. */
  lemma {:induction false} PackKeepsOrder(ts: seq<Tlv>)
    ensures Flatten(Pack(ts)) == ts
  {
    hide AddToGroups;
    if ts == [] {
      assert Flatten(Pack(ts)) == Flatten([]) + [];
    } else {
      PackKeepsOrder(Front(ts));
      AddedFlat(Pack(Front(ts)), Last(ts));
    }
  }

  /** Every message stays within the chunk size, and only an empty queue has an empty message. */
  lemma {:induction false} PackBounds(ts: seq<Tlv>)
    requires AllPackable(ts)
    ensures forall g <- Pack(ts) :: GroupSize(g) <= CHUNK_SIZE
    ensures ts != [] ==> forall g <- Pack(ts) :: g != []
  {
    if ts != [] {
      PackBounds(Front(ts));
      assert Packable(Last(ts)) by { assert Last(ts) in ts; }
      if |ts| == 1 {
        assert Pack(Front(ts)) == [[]];
        AddedBounds([[]], ts[0]);
      } else {
        var gs := Pack(Front(ts));
        assert forall g <- Front(gs) :: g in gs;
        AddedBounds(gs, Last(ts));
      }
    }
  }

  lemma AddedSize(gs: seq<seq<Tlv>>, t: Tlv)
    requires gs != []
    ensures GroupSize([t]) == 1 + t.Size()
    ensures GroupSize(Last(gs) + [t]) == GroupSize(Last(gs)) + t.Size()
  {
    assert Front([t]) == [] && Front(Last(gs) + [t]) == Last(gs);
    assert GroupSize([t]) == GroupSize(Front([t])) + t.Size();
  }

  lemma AddedBounds(gs: seq<seq<Tlv>>, t: Tlv)
    requires gs != [] && Packable(t)
    requires forall g <- gs :: GroupSize(g) <= CHUNK_SIZE
    requires forall g <- Front(gs) :: g != []
    requires Last(gs) == [] ==> |gs| == 1 && GroupSize(Last(gs)) == 1
    ensures forall g <- AddToGroups(gs, t) :: GroupSize(g) <= CHUNK_SIZE && g != []
  {
    hide GroupSize;
    AddedSize(gs, t);
    forall g | g in AddToGroups(gs, t) ensures GroupSize(g) <= CHUNK_SIZE && g != [] {
      assert g in Front(gs) || g == Last(gs) || g == [t] || g == Last(gs) + [t];
      assert g in Front(gs) ==> g in gs;
      assert Last(gs) in gs;
    }
  }

  /** Greedy packing is optimal: no way of cutting `ts` into consecutive messages of at most
      CHUNK_SIZE bytes uses fewer of them. */
  lemma GreedyIsOptimal(ts: seq<Tlv>, parts: seq<seq<Tlv>>)
    requires parts != [] && Flatten(parts) == ts
    requires forall g <- parts :: GroupSize(g) <= CHUNK_SIZE
    ensures |Pack(ts)| <= |parts|
  {
    GreedyStaysAhead(parts);
  }

  /** The greedy packing of what the parts hold never needs more messages than there are parts,
      and when it needs as many its last message is no fuller than the last part. */
  lemma {:induction false} GreedyStaysAhead(parts: seq<seq<Tlv>>)
    requires parts != []
    requires forall g <- parts :: GroupSize(g) <= CHUNK_SIZE
    ensures var gs := Pack(Flatten(parts));
      |gs| < |parts| || (|gs| == |parts| && GroupSize(Last(gs)) <= GroupSize(Last(parts)))
    decreases |parts|, |Last(parts)|
  {
    hide Pack, GroupSize;
    var front, q := Front(parts), Last(parts);
    if q == [] && front == [] {
      OnlyEmptyPart(parts);
    } else if q == [] {
      assert Flatten(parts) == Flatten(front);
      GreedyStaysAhead(front);
    } else {
      var shorter, t := front + [Front(q)], Last(q);
      assert q in parts && Front(shorter) == front;
      AddedSize([Front(q)], t);
      assert Front(q) + [t] == q;
      forall g | g in shorter ensures GroupSize(g) <= CHUNK_SIZE {
        assert g in front ==> g in parts;
      }
      GreedyStaysAhead(shorter);
      assert Flatten(parts) == Flatten(shorter) + [t];
      SizeAtLeast(Front(q));
      GreedyStep(Flatten(shorter), t, |parts|, GroupSize(Front(q)));
    }
  }

  lemma OnlyEmptyPart(parts: seq<seq<Tlv>>)
    requires parts == [[]]
    ensures Pack(Flatten(parts)) == [[]]
  {
    assert Flatten(parts) == [];
  }

  /** One more TLV on both sides. */
  lemma GreedyStep(ts: seq<Tlv>, t: Tlv, n: nat, size: nat)
    requires size >= 1 && size + t.Size() <= CHUNK_SIZE
    requires |Pack(ts)| < n || (|Pack(ts)| == n && GroupSize(Last(Pack(ts))) <= size)
    ensures var gs := Pack(ts + [t]);
      |gs| < n || (|gs| == n && GroupSize(Last(gs)) <= size + t.Size())
  {
    assert Front(ts + [t]) == ts;
    AddedSize(Pack(ts), t);
    hide GroupSize;
  }

  lemma SizeAtLeast(g: seq<Tlv>)
    ensures GroupSize(g) >= 1
  {
  }

  /** The bytes of the TLVs alone. */
  function Payload(ts: seq<Tlv>): nat {
    GroupSize(ts) - 1
  }

  /** The payload of all messages but the last, plus the payload that closed each of them. */
  ghost function PairPayload(gs: seq<seq<Tlv>>): nat {
    if |gs| <= 1 then 0
    else PairPayload(Front(gs)) + (GroupSize(Last(Front(gs))) - 1) + (GroupSize(Last(gs)) - 1)
  }

  lemma {:induction false} PackCrowded(ts: seq<Tlv>)
    ensures CHUNK_SIZE * (|Pack(ts)| - 1) <= PairPayload(Pack(ts))
    ensures PairPayload(Pack(ts)) + (GroupSize(Last(Pack(ts))) - 1) <= 2 * (GroupSize(ts) - 1)
  {
    if ts != [] {
      PackCrowded(Front(ts));
      var gs, t := Pack(Front(ts)), Last(ts);
      AddedSize(gs, t);
      var next := Pack(ts);
      if |next| == |gs| {
        assert Front(next) == Front(gs);
      } else {
        assert Front(next) == gs;
      }
    }
  }

  /** Two neighbouring messages always overflow one, so the message count is at most
      one more than twice the payload over the chunk size. */
  lemma MessageCount(ts: seq<Tlv>)
    ensures CHUNK_SIZE * (|Pack(ts)| - 1) <= 2 * Payload(ts)
  {
    PackCrowded(ts);
    SizeAtLeast(Last(Pack(ts)));
  }

  /** Whatever sits in a message that is not the last came before the last TLV added. */
  lemma {:induction false} EarlierGroups(ts: seq<Tlv>)
    requires ts != []
    ensures forall i, t :: 0 <= i < |Pack(ts)| - 1 && t in Pack(ts)[i] ==> t in Front(ts)
    ensures Last(Pack(ts)) != [] && Last(Last(Pack(ts))) == Last(ts)
  {
    var gs := Pack(Front(ts));
    PackKeepsOrder(Front(ts));
    forall i, t | 0 <= i < |gs| && t in gs[i] ensures t in Front(ts) {
      InFlatten(gs, i, t);
    }
  }

  lemma {:induction false} InFlatten<T>(gs: seq<seq<T>>, i: nat, t: T)
    requires i < |gs| && t in gs[i]
    ensures t in Flatten(gs)
  {
    if i < |gs| - 1 {
      InFlatten(Front(gs), i, t);
    }
  }
}
