/** A work queue with acknowledgements and a dead-letter queue, as four bags of messages. */
module MessageBroker {

  datatype Bags<M(==)> = Bags(ready: multiset<M>, unacked: multiset<M>, acked: multiset<M>, dead: multiset<M>)

  function Every<M>(b: Bags<M>): multiset<M> {
    b.ready + b.unacked + b.acked + b.dead
  }

  function Published<M>(b: Bags<M>, m: M): Bags<M> {
    b.(ready := b.ready + multiset{m})
  }

  function Delivered<M>(b: Bags<M>, m: M): Bags<M> {
    b.(ready := b.ready - multiset{m}, unacked := b.unacked + multiset{m})
  }

  /** A message is settled by an acknowledgement, or by a negative one without requeueing. */
  function Settled<M>(b: Bags<M>, m: M, acknowledged: bool): Bags<M> {
    var rest := b.(unacked := b.unacked - multiset{m});
    if acknowledged then rest.(acked := b.acked + multiset{m}) else rest.(dead := b.dead + multiset{m})
  }

  /** A lost connection returns what was not settled. */
  function Requeued<M>(b: Bags<M>): Bags<M> {
    b.(ready := b.ready + b.unacked, unacked := multiset{})
  }

  /** Nothing is lost or doubled: only publishing adds a message. */
  lemma BagsAreConserved<M>(b: Bags<M>, m: M, acknowledged: bool)
    ensures Every(Published(b, m)) == Every(b) + multiset{m}
    ensures m in b.ready ==> Every(Delivered(b, m)) == Every(b)
    ensures m in b.unacked ==> Every(Settled(b, m, acknowledged)) == Every(b)
    ensures Every(Requeued(b)) == Every(b)
  {}

  class Channel<M(==)> {
    var bags: Bags<M>

    constructor (bags: Bags<M>)
      ensures this.bags == bags
    {
      this.bags := bags;
    }

    method Ack(m: M)
      requires m in bags.unacked
      modifies this
      ensures bags == Settled(old(bags), m, true)
      ensures bags.acked == old(bags).acked + multiset{m}
      ensures bags.dead == old(bags).dead && bags.ready == old(bags).ready
    {
      bags := bags.(unacked := bags.unacked - multiset{m}, acked := bags.acked + multiset{m});
    }

    method Nack(m: M)
      requires m in bags.unacked
      modifies this
      ensures bags == Settled(old(bags), m, false)
      ensures bags.dead == old(bags).dead + multiset{m}
      ensures bags.acked == old(bags).acked && bags.ready == old(bags).ready
    {
      bags := bags.(unacked := bags.unacked - multiset{m}, dead := bags.dead + multiset{m});
    }
  }
}
