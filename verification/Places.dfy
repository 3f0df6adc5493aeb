/** Where the packets accepted from the tun device are: the bookkeeping behind the tunnel's ghost state. */
module Places {
  import opened Common

  /** A packet; `id` stands for the address of its allocation. */
  datatype Packet = Packet(id: nat, data: seq<byte>)

  /**
   The packets accepted so far, those queued, the one in flight on TLS, those completed and those
   dropped; how often a compressed packet was queued again, and how often DTLS disposed of a
   packet while another one was in flight on TLS.
   */
  datatype Places = Places(
    accepted: seq<Packet>, queue: seq<Packet>, flight: seq<Packet>, completed: seq<Packet>, dropped: seq<Packet>,
    requeued: nat, overtaken: nat)

  ghost predicate Good(p: Places)
  {
    && |p.flight| <= 1
    && (forall i :: 0 <= i < |p.accepted| ==> p.accepted[i].id == i)
    && multiset(p.accepted) == multiset(p.queue) + multiset(p.flight) + multiset(p.completed) + multiset(p.dropped)
    && (p.requeued == 0 && p.overtaken == 0 && p.dropped == [] ==> p.accepted == p.completed + p.flight + p.queue)
  }

  /** The account agrees with the queue, the packet in flight and the number of packets read. */
  ghost predicate Accounted(p: Places, queue: seq<Packet>, carried: Option<Packet>, read: nat)
  {
    && Good(p) && p.queue == queue && read == |p.accepted|
    && p.flight == (match carried case None => [] case Some(x) => [x])
  }

  function Accept(p: Places, data: seq<byte>): Places
  {
    var x := Packet(|p.accepted|, data);
    p.(accepted := p.accepted + [x], queue := p.queue + [x])
  }

  function Dequeue(p: Places): Places
    requires p.queue != []
  {
    p.(queue := p.queue[1..], flight := [p.queue[0]])
  }

  function Complete(p: Places): Places
  {
    p.(flight := [], completed := p.completed + p.flight)
  }

  function Requeue(p: Places): Places
  {
    p.(flight := [], queue := p.queue + p.flight, requeued := p.requeued + |p.flight|)
  }

  function SendDtls(p: Places): Places
    requires p.queue != []
  {
    p.(queue := p.queue[1..], completed := p.completed + [p.queue[0]], overtaken := p.overtaken + |p.flight|)
  }

  function DropDtls(p: Places): Places
    requires p.queue != []
  {
    p.(queue := p.queue[1..], dropped := p.dropped + [p.queue[0]], overtaken := p.overtaken + |p.flight|)
  }

  /** The first queued packet is gone from the queue, and not to TLS. */
  predicate OneLess(p: Places, q: Places)
    requires p.queue != []
  {
    q.queue == p.queue[1..] && q.flight == p.flight && q.accepted == p.accepted && q.requeued == p.requeued
  }

  /** The first `n` queued packets sent over DTLS. */
  function SendMany(p: Places, n: nat): Places
    requires n <= |p.queue|
  {
    p.(queue := p.queue[n..], completed := p.completed + p.queue[..n], overtaken := p.overtaken + n * |p.flight|)
  }

  lemma SendManyStep(p: Places, n: nat)
    requires n < |p.queue|
    ensures SendMany(p, n).queue != [] && SendDtls(SendMany(p, n)) == SendMany(p, n + 1)
  {
    assert p.queue[n..][0] == p.queue[n] && p.queue[n..][1..] == p.queue[n + 1..];
    assert p.queue[..n + 1] == p.queue[..n] + [p.queue[n]];
    assert (n + 1) * |p.flight| == n * |p.flight| + |p.flight|;
  }

  lemma SendNone(p: Places)
    ensures SendMany(p, 0) == p
  {
    assert 0 * |p.flight| == 0;
  }

  /** Nothing accepted, completed or dropped is forgotten. */
  ghost predicate Later(p: Places, q: Places)
  {
    p.accepted <= q.accepted && p.completed <= q.completed && p.dropped <= q.dropped
  }

  lemma LaterTransitive(p: Places, q: Places, r: Places)
    requires Later(p, q) && Later(q, r)
    ensures Later(p, r)
  {}

  lemma SameIsLater(p: Places)
    ensures Later(p, p)
  {}

  lemma SendManyLater(p: Places, n: nat)
    requires n <= |p.queue|
    ensures Later(p, SendMany(p, n))
    ensures n < |p.queue| ==> Later(p, DropDtls(SendMany(p, n)))
  {}

  lemma HeadTail(q: seq<Packet>)
    requires q != []
    ensures q == [q[0]] + q[1..]
    ensures multiset(q) == multiset([q[0]]) + multiset(q[1..])
  {
    assert q == [q[0]] + q[1..];
  }

  lemma AcceptGood(p: Places, data: seq<byte>)
    requires Good(p)
    ensures Good(Accept(p, data))
  {
    var x := Packet(|p.accepted|, data);
    assert multiset(p.accepted + [x]) == multiset(p.accepted) + multiset([x]);
    assert multiset(p.queue + [x]) == multiset(p.queue) + multiset([x]);
    var before := p.completed + p.flight;
    assert before + (p.queue + [x]) == before + p.queue + [x];
  }

  lemma DequeueGood(p: Places)
    requires Good(p) && p.queue != [] && p.flight == []
    ensures Good(Dequeue(p))
  {
    HeadTail(p.queue);
    assert p.completed + [] + p.queue == p.completed + [p.queue[0]] + p.queue[1..];
  }

  lemma CompleteGood(p: Places)
    requires Good(p)
    ensures Good(Complete(p))
  {
    assert p.completed + p.flight + p.queue == p.completed + p.flight + [] + p.queue;
  }

  lemma RequeueGood(p: Places)
    requires Good(p)
    ensures Good(Requeue(p))
  {
    if p.flight == [] {
      assert p.completed + p.flight + p.queue == p.completed + [] + (p.queue + p.flight);
    }
  }

  lemma SendDtlsGood(p: Places)
    requires Good(p) && p.queue != []
    ensures Good(SendDtls(p)) && OneLess(p, SendDtls(p))
  {
    HeadTail(p.queue);
    assert p.completed + [] + p.queue == p.completed + [p.queue[0]] + [] + p.queue[1..];
  }

  lemma DropDtlsGood(p: Places)
    requires Good(p) && p.queue != []
    ensures Good(DropDtls(p)) && OneLess(p, DropDtls(p))
  {
    HeadTail(p.queue);
  }

  /** Each accepted packet is in exactly one place, once. */
  lemma ExactlyOnePlace(p: Places, i: nat)
    requires Good(p) && i < |p.accepted|
    ensures var x := p.accepted[i];
      multiset(p.queue)[x] + multiset(p.flight)[x] + multiset(p.completed)[x] + multiset(p.dropped)[x] == 1
  {
    CountOnce(p.accepted, i);
  }

  lemma {:induction false} CountOnce(s: seq<Packet>, i: nat)
    requires i < |s| && forall k :: 0 <= k < |s| ==> s[k].id == k
    ensures multiset(s)[s[i]] == 1
  {
    assert s == s[..i] + [s[i]] + s[i + 1..];
    assert s[i] !in s[..i] && s[i] !in s[i + 1..];
  }

  /** And nothing is in any place that was not accepted. */
  lemma NothingElse(p: Places, x: Packet)
    requires Good(p) && x in p.queue + p.flight + p.completed + p.dropped
    ensures x in p.accepted
  {
    assert x in multiset(p.accepted);
  }
}
