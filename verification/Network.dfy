/** The in-process network: one shared queue, directed partitions, and receives by
    link or by destination.
 */
module Network {
  import opened Journals

  datatype Message = Message(from: ActorId, to: ActorId, payload: nat)

  type Link = (ActorId, ActorId)

  function LinkOf(m: Message): Link { (m.from, m.to) }

  /** The payloads on one link, in order. */
  function OnLink(ms: seq<Message>, link: Link): seq<nat> {
    if ms == [] then []
    else (if LinkOf(ms[0]) == link then [ms[0].payload] else []) + OnLink(ms[1..], link)
  }

  lemma {:induction false} OnLinkConcat(a: seq<Message>, b: seq<Message>, link: Link)
    ensures OnLink(a + b, link) == OnLink(a, link) + OnLink(b, link)
  {
    if a == [] {
      assert a + b == b;
    } else {
      assert (a + b)[1..] == a[1..] + b;
      OnLinkConcat(a[1..], b, link);
    }
  }

  /** Index of the first message satisfying `p`, or the length. */
  function Position(ms: seq<Message>, p: Message -> bool): (i: nat)
    ensures i <= |ms| && (i < |ms| ==> p(ms[i])) && forall k :: 0 <= k < i ==> !p(ms[k])
  {
    if ms == [] then 0 else if p(ms[0]) then 0 else 1 + Position(ms[1..], p)
  }

  /** The oldest message on a link is at `i`. */
  ghost predicate OldestOn(ms: seq<Message>, i: nat, link: Link) {
    i < |ms| && LinkOf(ms[i]) == link && forall k :: 0 <= k < i ==> LinkOf(ms[k]) != link
  }

  /** The oldest message to an actor is at `i`. */
  ghost predicate OldestTo(ms: seq<Message>, i: nat, actor: ActorId) {
    i < |ms| && ms[i].to == actor && forall k :: 0 <= k < i ==> ms[k].to != actor
  }

  function Without(ms: seq<Message>, i: nat): seq<Message>
    requires i < |ms|
  {
    ms[..i] + ms[i + 1..]
  }

  /** Taking the first message of its link out of the queue takes the head of that
      link and leaves every other link alone. */
  lemma TakeFirst(ms: seq<Message>, i: nat, link: Link)
    requires i < |ms| && forall k :: 0 <= k < i ==> LinkOf(ms[k]) != LinkOf(ms[i])
    ensures LinkOf(ms[i]) == link ==> OnLink(ms, link) == [ms[i].payload] + OnLink(Without(ms, i), link)
    ensures LinkOf(ms[i]) != link ==> OnLink(ms, link) == OnLink(Without(ms, i), link)
  {
    assert ms == ms[..i] + ([ms[i]] + ms[i + 1..]);
    OnLinkConcat(ms[..i], [ms[i]] + ms[i + 1..], link);
    OnLinkConcat([ms[i]], ms[i + 1..], link);
    OnLinkConcat(ms[..i], ms[i + 1..], link);
    assert [ms[i]][1..] == [];
    if LinkOf(ms[i]) == link { NoneOnLink(ms[..i], link); }
  }

  lemma {:induction false} NoneOnLink(ms: seq<Message>, link: Link)
    requires forall k :: 0 <= k < |ms| ==> LinkOf(ms[k]) != link
    ensures OnLink(ms, link) == []
  {
    if ms != [] { NoneOnLink(ms[1..], link); }
  }

  // ----- the state machine

  datatype Net = Net(queue: seq<Message>, partitions: set<Link>)

  datatype Op =
    | Send(from: ActorId, to: ActorId, payload: nat)
    | Recv(from: ActorId, to: ActorId)
    | RecvFor(actor: ActorId)
    | Partition(from: ActorId, to: ActorId)

  /** One operation: the next state, what was accepted and what was delivered. */
  datatype Effect = Effect(net: Net, accepted: seq<Message>, delivered: seq<Message>)

  function Take(net: Net, i: nat): Effect
    requires i <= |net.queue|
  {
    if i == |net.queue| then Effect(net, [], []) else Effect(net.(queue := Without(net.queue, i)), [], [net.queue[i]])
  }

  function Step(net: Net, op: Op): Effect {
    match op
    case Send(f, t, p) =>
      if (f, t) in net.partitions then Effect(net, [], [])
      else Effect(net.(queue := net.queue + [Message(f, t, p)]), [Message(f, t, p)], [])
    case Recv(f, t) => Take(net, Position(net.queue, (m: Message) => m.from == f && m.to == t))
    case RecvFor(a) => Take(net, Position(net.queue, (m: Message) => m.to == a))
    case Partition(f, t) => Effect(net.(partitions := net.partitions + {(f, t)}), [], [])
  }

  /** A whole run, with everything it accepted and delivered. */
  function Run(net: Net, ops: seq<Op>): Effect {
    if ops == [] then Effect(net, [], [])
    else
      var before := Run(net, ops[..|ops| - 1]);
      var last := Step(before.net, ops[|ops| - 1]);
      Effect(last.net, before.accepted + last.accepted, before.delivered + last.delivered)
  }

  lemma StepConserves(net: Net, op: Op, link: Link)
    ensures var e := Step(net, op);
            OnLink(net.queue, link) + OnLink(e.accepted, link) == OnLink(e.delivered, link) + OnLink(e.net.queue, link)
  {
    var e := Step(net, op);
    match op {
      case Send(f, t, p) => OnLinkConcat(net.queue, [Message(f, t, p)], link);
      case Recv(f, t) =>
        var i := Position(net.queue, (m: Message) => m.from == f && m.to == t);
        if i < |net.queue| { TakeConserves(net.queue, i, link); }
      case RecvFor(a) =>
        var i := Position(net.queue, (m: Message) => m.to == a);
        if i < |net.queue| { TakeConserves(net.queue, i, link); }
      case Partition(_, _) =>
    }
  }

  lemma TakeConserves(queue: seq<Message>, i: nat, link: Link)
    requires i < |queue| && forall k :: 0 <= k < i ==> LinkOf(queue[k]) != LinkOf(queue[i])
    ensures OnLink(queue, link) == OnLink([queue[i]], link) + OnLink(Without(queue, i), link)
  {
    TakeFirst(queue, i, link);
    assert [queue[i]][1..] == [];
  }

  /** Two balanced stretches join into a balanced one. */
  lemma Spliced<T>(start: seq<T>, sent: seq<T>, got: seq<T>, mid: seq<T>, sent': seq<T>, got': seq<T>, end: seq<T>)
    requires start + sent == got + mid && mid + sent' == got' + end
    ensures start + (sent + sent') == (got + got') + end
  {
    assert start + (sent + sent') == (start + sent) + sent';
    assert (got + mid) + sent' == got + (mid + sent');
    assert got + (got' + end) == (got + got') + end;
  }

  /** Per link nothing is lost, duplicated or reordered, in any run from any queue:
      what was queued and accepted is what was delivered followed by what is queued. */
  lemma {:induction false} RunConserves(net: Net, ops: seq<Op>, link: Link)
    ensures var e := Run(net, ops);
            OnLink(net.queue, link) + OnLink(e.accepted, link) == OnLink(e.delivered, link) + OnLink(e.net.queue, link)
  {
    if ops != [] {
      var before := Run(net, ops[..|ops| - 1]);
      var last := Step(before.net, ops[|ops| - 1]);
      RunConserves(net, ops[..|ops| - 1], link);
      StepConserves(before.net, ops[|ops| - 1], link);
      OnLinkConcat(before.accepted, last.accepted, link);
      OnLinkConcat(before.delivered, last.delivered, link);
      Spliced(OnLink(net.queue, link), OnLink(before.accepted, link), OnLink(before.delivered, link),
              OnLink(before.net.queue, link), OnLink(last.accepted, link), OnLink(last.delivered, link),
              OnLink(last.net.queue, link));
    }
  }

  // ----- by destination

  /** The messages to one actor, in order. */
  function To(ms: seq<Message>, actor: ActorId): seq<Message> {
    if ms == [] then [] else (if ms[0].to == actor then [ms[0]] else []) + To(ms[1..], actor)
  }

  lemma {:induction false} ToConcat(a: seq<Message>, b: seq<Message>, actor: ActorId)
    ensures To(a + b, actor) == To(a, actor) + To(b, actor)
  {
    if a == [] {
      assert a + b == b;
    } else {
      assert (a + b)[0] == a[0] && (a + b)[1..] == a[1..] + b;
      ToConcat(a[1..], b, actor);
      var first := if a[0].to == actor then [a[0]] else [];
      assert first + (To(a[1..], actor) + To(b, actor)) == first + To(a[1..], actor) + To(b, actor);
    }
  }

  lemma {:induction false} NoneTo(ms: seq<Message>, actor: ActorId)
    requires forall k :: 0 <= k < |ms| ==> ms[k].to != actor
    ensures To(ms, actor) == []
  {
    if ms != [] { NoneTo(ms[1..], actor); }
  }

  /** Taking out a message that is the first to its actor, or is to another one. */
  lemma TakeTo(ms: seq<Message>, i: nat, actor: ActorId)
    requires i < |ms| && (ms[i].to == actor ==> forall k :: 0 <= k < i ==> ms[k].to != actor)
    ensures To(ms, actor) == To([ms[i]], actor) + To(Without(ms, i), actor)
  {
    assert ms == ms[..i] + ([ms[i]] + ms[i + 1..]);
    ToConcat(ms[..i], [ms[i]] + ms[i + 1..], actor);
    ToConcat([ms[i]], ms[i + 1..], actor);
    ToConcat(ms[..i], ms[i + 1..], actor);
    assert [ms[i]][1..] == [];
    if ms[i].to == actor { NoneTo(ms[..i], actor); }
  }

  /** The operation does not receive for this actor by link. */
  predicate Untargeted(op: Op, actor: ActorId) {
    op.Recv? ==> op.to != actor
  }

  lemma StepConservesTo(net: Net, op: Op, actor: ActorId)
    requires Untargeted(op, actor)
    ensures var e := Step(net, op);
            To(net.queue, actor) + To(e.accepted, actor) == To(e.delivered, actor) + To(e.net.queue, actor)
  {
    match op {
      case Send(f, t, p) => ToConcat(net.queue, [Message(f, t, p)], actor);
      case Recv(f, t) =>
        var i := Position(net.queue, (m: Message) => m.from == f && m.to == t);
        if i < |net.queue| { TakeTo(net.queue, i, actor); }
      case RecvFor(a) =>
        var i := Position(net.queue, (m: Message) => m.to == a);
        if i < |net.queue| { TakeTo(net.queue, i, actor); }
      case Partition(_, _) =>
    }
  }

  /** As long as an actor is received for by destination only, it gets everything accepted
      for it, from whatever sender, in the order of acceptance. */
  lemma {:induction false} RunConservesTo(net: Net, ops: seq<Op>, actor: ActorId)
    requires forall k :: 0 <= k < |ops| ==> Untargeted(ops[k], actor)
    ensures var e := Run(net, ops);
            To(net.queue, actor) + To(e.accepted, actor) == To(e.delivered, actor) + To(e.net.queue, actor)
  {
    if ops != [] {
      var before := Run(net, ops[..|ops| - 1]);
      var last := Step(before.net, ops[|ops| - 1]);
      RunConservesTo(net, ops[..|ops| - 1], actor);
      StepConservesTo(before.net, ops[|ops| - 1], actor);
      ToConcat(before.accepted, last.accepted, actor);
      ToConcat(before.delivered, last.delivered, actor);
      Spliced(To(net.queue, actor), To(before.accepted, actor), To(before.delivered, actor),
              To(before.net.queue, actor), To(last.accepted, actor), To(last.delivered, actor),
              To(last.net.queue, actor));
    }
  }

  /** A partition is forever: once a link is cut nothing more is accepted on it, while
      what is queued can still be delivered. */
  lemma {:induction false} PartitionedAcceptsNothing(net: Net, ops: seq<Op>, link: Link)
    requires link in net.partitions
    ensures link in Run(net, ops).net.partitions && OnLink(Run(net, ops).accepted, link) == []
  {
    if ops != [] {
      var before := Run(net, ops[..|ops| - 1]);
      var last := Step(before.net, ops[|ops| - 1]);
      PartitionedAcceptsNothing(net, ops[..|ops| - 1], link);
      OnLinkConcat(before.accepted, last.accepted, link);
      assert last.accepted == [] || last.accepted[1..] == [];
    }
  }

  // ----- the shared object

  class SharedNet {
    var queue: seq<Message>
    var partitions: set<Link>

    constructor ()
      ensures State() == Net([], {})
    {
      queue, partitions := [], {};
    }

    function State(): Net
      reads this
    {
      Net(queue, partitions)
    }

    method Send(from: ActorId, to: ActorId, payload: nat) returns (ok: bool)
      modifies this
      ensures State() == Step(old(State()), Op.Send(from, to, payload)).net
      ensures Step(old(State()), Op.Send(from, to, payload)).accepted == if ok then [Message(from, to, payload)] else []
      ensures ok <==> (from, to) !in old(partitions)
      ensures queue == old(queue) + if ok then [Message(from, to, payload)] else []
      ensures partitions == old(partitions)
    {
      if (from, to) in partitions {
        return false;
      }
      queue := queue + [Message(from, to, payload)];
      return true;
    }

    /** Remove and return the message at `pos`, when there is one. */
    method RemoveAt(pos: nat) returns (r: Option<nat>)
      requires pos <= |queue|
      modifies this`queue
      ensures State() == Take(old(State()), pos).net
      ensures pos < |old(queue)| ==>
                r == Some(old(queue)[pos].payload) && queue == old(queue)[..pos] + old(queue)[pos + 1..]
      ensures pos == |old(queue)| ==> r.None? && queue == old(queue)
    {
      if pos == |queue| {
        return None;
      }
      r := Some(queue[pos].payload);
      queue := queue[..pos] + queue[pos + 1..];
    }

    method Recv(from: ActorId, to: ActorId) returns (r: Option<nat>)
      modifies this`queue
      ensures State() == Step(old(State()), Op.Recv(from, to)).net
      ensures r == (if OnLink(old(queue), (from, to)) == [] then None else Some(OnLink(old(queue), (from, to))[0]))
      ensures r.None? ==> queue == old(queue) && forall k :: 0 <= k < |queue| ==> LinkOf(queue[k]) != (from, to)
      ensures r.Some? ==>
                exists i: nat :: OldestOn(old(queue), i, (from, to)) && r.value == old(queue)[i].payload
                            && queue == old(queue)[..i] + old(queue)[i + 1..]
    {
      var pos := Position(queue, (m: Message) => m.from == from && m.to == to);
      if pos < |queue| {
        assert OldestOn(queue, pos, (from, to));
        TakeFirst(queue, pos, (from, to));
      } else {
        NoneOnLink(queue, (from, to));
      }
      r := RemoveAt(pos);
    }

    method RecvFor(actor: ActorId) returns (r: Option<nat>)
      modifies this`queue
      ensures State() == Step(old(State()), Op.RecvFor(actor)).net
      ensures var d := Step(old(State()), Op.RecvFor(actor)).delivered;
              r == if d == [] then None else Some(d[0].payload)
      ensures r.None? <==> forall k :: 0 <= k < |old(queue)| ==> old(queue)[k].to != actor
      ensures r.None? ==> queue == old(queue)
      ensures r.Some? ==>
                exists i: nat :: OldestTo(old(queue), i, actor) && r.value == old(queue)[i].payload
                            && queue == old(queue)[..i] + old(queue)[i + 1..]
    {
      var pos := Position(queue, (m: Message) => m.to == actor);
      assert pos < |queue| ==> OldestTo(queue, pos, actor);
      r := RemoveAt(pos);
    }

    method Partition(from: ActorId, to: ActorId)
      modifies this`partitions
      ensures State() == Step(old(State()), Op.Partition(from, to)).net
      ensures partitions == old(partitions) + {(from, to)}
    {
      partitions := partitions + {(from, to)};
    }
  }
}
