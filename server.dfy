/**
 * The echo server as the program runs it. One `Server` object holds what the
 * program keeps in globals and on its heap: the listening socket, the
 * submission queue of the ring (`sq`, prepared but not yet submitted), the
 * entries the kernel is working on (`inflight`), the contexts and buffers,
 * and the logs of closed descriptors, freed pointers, posted and consumed
 * completions. The kernel is the script `env`: each `Choice` completes one
 * in-flight entry.
 *
 * `halted` means the run is over: `malloc` failed (the program exits) or
 * `wait_cqe` would block for ever (no completion left to post).
 */
module EchoServer {
  import opened Codec
  import opened Echo

  /** Cutting the entry at `k` out of a sequence takes it out of its multiset. */
  lemma Unsplice(s: seq<Sqe>, k: int)
    requires 0 <= k < |s|
    ensures multiset(s[..k] + s[k + 1..]) + multiset{s[k]} == multiset(s)
  {
    assert s == s[..k] + [s[k]] + s[k + 1..];
  }

  class Server {
    const serv: int
    var sq: seq<Sqe>
    var inflight: seq<Sqe>
    var ctxs: map<int, Context>
    var bufs: map<int, seq<bv8>>
    var brk: int
    var halted: bool
    var closed: seq<int>
    var freed: seq<int>
    var posted: seq<Cqe>
    var seen: seq<Cqe>
    var env: seq<Choice>
    /** The entries queued or in flight, as a multiset. */
    ghost var pending: multiset<Sqe>
    /** The accept currently outstanding. */
    ghost var accept: Sqe
    /** The context each receive or send buffer was allocated for. */
    ghost var owner: map<int, int>

    /** `pending` is every entry the kernel has not completed yet: those
        queued and those in flight. */
    ghost predicate QueueOk()
      reads this`sq, this`inflight, this`pending
    {
      pending == multiset(sq) + multiset(inflight)
    }

    /** Between completions: the heap and the outstanding entries are
        consistent, every pointer freed so far was freed once and is no longer
        live, exactly one accept is outstanding, and every completion the
        kernel posted has been marked seen, in order. */
    ghost predicate Valid()
      reads this
    {
      QueueOk() &&
      (halted ||
       (Consistent(pending, ctxs, bufs, owner, brk, serv) && Released(freed, ctxs, bufs, brk) &&
        OnlyAccept(accept, pending) && seen == posted))
    }

    /** No completion was consumed and none was marked seen. */
    twostate predicate Quiet()
      reads this
    {
      env == old(env) && posted == old(posted) && seen == old(seen)
    }

    /** `context_free` has run on `p`: its descriptor is closed, its buffers
        and the context itself are freed, and nothing else changed. */
    twostate predicate TornDown(p: int)
      reads this`ctxs, this`bufs, this`closed, this`freed, this`inflight, this`sq, this`pending, this`brk, this`accept
    {
      old(p in ctxs) &&
      ctxs == old(ctxs) - {p} &&
      bufs == old(bufs) - {old(ctxs[p].inp), old(ctxs[p].out)} &&
      closed == old(closed) + [old(ctxs[p].fd)] &&
      freed == old(freed) + [old(ctxs[p].out), old(ctxs[p].inp), p] &&
      inflight == old(inflight) && sq == old(sq) && pending == old(pending) && brk == old(brk) &&
      accept == old(accept)
    }

    /** The `EV_ACCEPT` case of `hnd_cqe` for context `p` has run: a failed
        accept (`res < 0`) leaves `p` idle; a connection `res` gets `p` with
        a receive buffer at the break and its first receive and timeout in
        flight. Either way a new context at the break then has the accept in
        flight, and no descriptor is closed and nothing freed. */
    twostate predicate Accepted(p: int, res: int)
      reads this`ctxs, this`bufs, this`closed, this`freed, this`inflight, this`sq, this`pending, this`brk, this`accept
    {
      sq == [] && closed == old(closed) && freed == old(freed) &&
      (res < 0 ==>
        accept == AcceptSqe(serv, old(brk)) && brk == old(brk) + CONTEXT_SIZE &&
        ctxs == old(ctxs)[old(brk) := Context(-1, 0, 0, 0, 0)] && bufs == old(bufs) &&
        inflight == old(inflight) + [accept] && Idle(p, pending)) &&
      (res >= 0 ==>
        accept == AcceptSqe(serv, old(brk) + BLK_SIZE) && brk == old(brk) + BLK_SIZE + CONTEXT_SIZE &&
        ctxs == old(ctxs)[p := Context(res, old(brk), 0, 0, 0)][old(brk) + BLK_SIZE := Context(-1, 0, 0, 0, 0)] &&
        bufs == old(bufs)[old(brk) := Block()] &&
        inflight == old(inflight) + [RecvSqe(Context(res, old(brk), 0, 0, 0), p), TimeoutSqe(p), accept])
    }

    /** `prep_send` has echoed the `inlen` received bytes of `p`: the copy
        into `out` (allocated at the break when missing) and the context
        update of `Sent`, with the send of exactly those bytes in flight;
        no descriptor is closed and nothing freed. */
    twostate predicate Echoing(p: int, inlen: int)
      reads this`ctxs, this`bufs, this`closed, this`freed, this`inflight, this`sq, this`brk
    {
      old(p in ctxs) && old(Copyable(bufs, ctxs[p], inlen)) &&
      ctxs == old(ctxs)[p := Sent(old(ctxs[p]), inlen, old(brk))] &&
      bufs == CopyIn(old(bufs), old(ctxs[p]), inlen, old(brk)) &&
      brk == (if old(ctxs[p].out) != 0 then old(brk) else old(brk) + BLK_SIZE) &&
      inflight == old(inflight) + [SendSqe(ctxs[p], p)] && sq == [] &&
      closed == old(closed) && freed == old(freed)
    }

    /** `check_send` has re-armed `p`: its next receive and timeout are in
        flight on the same descriptor and buffer, and nothing else changed. */
    twostate predicate Rearmed(p: int)
      reads this`ctxs, this`bufs, this`closed, this`freed, this`inflight, this`sq, this`brk
    {
      ctxs == old(ctxs) && bufs == old(bufs) && brk == old(brk) && closed == old(closed) && freed == old(freed) &&
      p in ctxs && inflight == old(inflight) + [RecvSqe(ctxs[p], p), TimeoutSqe(p)] && sq == []
    }

    /** The state `main` reaches once the socket and the ring are set up. */
    constructor(serv: int, env: seq<Choice>)
      ensures this.serv == serv && this.env == env
      ensures sq == [] && inflight == [] && pending == multiset{} && ctxs == map[] && bufs == map[]
      ensures brk == HEAP_START && !halted && closed == [] && freed == [] && posted == [] && seen == []
    {
      this.serv := serv;
      this.env := env;
      sq, inflight, pending := [], [], multiset{};
      ctxs, bufs, owner := map[], map[], map[];
      brk := HEAP_START;
      halted := false;
      closed, freed, posted, seen := [], [], [], [];
      accept := AcceptSqe(serv, 0);
    }

    /** `get_sqe` has handed out a free slot and `io_uring_prep_*` filled it
        with `e`. */
    method Push(e: Sqe)
      requires |sq| < QUEUE_DEPTH && QueueOk()
      modifies this`sq, this`pending
      ensures sq == old(sq) + [e] && pending == old(pending) + multiset{e} && QueueOk()
    {
      sq := sq + [e];
      pending := pending + multiset{e};
    }

    /** `io_uring_submit`: the kernel takes every queued entry, in order. */
    method Submit()
      requires QueueOk()
      modifies this`sq, this`inflight
      ensures inflight == old(inflight) + old(sq) && sq == [] && QueueOk()
    {
      inflight := inflight + sq;
      sq := [];
    }

    /** Take a slot, fill it with `e` and submit everything queued. */
    method Enqueue(e: Sqe)
      requires !halted && |sq| < QUEUE_DEPTH && QueueOk()
      modifies this
      decreases |env|, 3
      ensures !halted && sq == [] && QueueOk() && inflight == old(inflight + sq) + [e] && pending == old(pending) + multiset{e}
      ensures unchanged(this`env, this`posted, this`seen, this`ctxs, this`bufs, this`owner, this`brk, this`closed, this`freed, this`accept)
    {
      GetSqe();
      Put(e);
    }

    /** Fill the slot with `e` and submit everything queued. */
    method Put(e: Sqe)
      requires |sq| < QUEUE_DEPTH && QueueOk()
      modifies this`sq, this`inflight, this`pending
      ensures sq == [] && QueueOk() && inflight == old(inflight + sq) + [e] && pending == old(pending) + multiset{e}
    {
      Push(e);
      Submit();
    }

    /** Take a slot for `r`, then one for `t`, and submit both. */
    method Enqueue2(r: Sqe, t: Sqe)
      requires !halted && sq == [] && QueueOk()
      modifies this
      decreases |env|, 4
      ensures !halted && sq == [] && QueueOk() && inflight == old(inflight) + [r, t]
      ensures pending == old(pending) + multiset{r} + multiset{t}
      ensures unchanged(this`env, this`posted, this`seen, this`ctxs, this`bufs, this`owner, this`brk, this`closed, this`freed, this`accept)
    {
      GetSqe();
      Push(r);
      Enqueue(t);
    }

    /** `context_free`: close the descriptor, free `out`, `in` and the
        context. */
    method ContextFree(p: int)
      requires p in ctxs && Idle(p, pending)
      requires Consistent(pending, ctxs, bufs, owner, brk, serv) && Released(freed, ctxs, bufs, brk)
      modifies this`ctxs, this`bufs, this`closed, this`freed
      ensures TornDown(p)
      ensures Consistent(pending, ctxs, bufs, owner, brk, serv) && Released(freed, ctxs, bufs, brk)
    {
      var c := ctxs[p];
      ReleasedAfterFree(ctxs, bufs, owner, brk, freed, p);
      HeapAfterFree(ctxs, bufs, owner, brk, p);
      EntriesAfterFree(pending, ctxs, serv, p);
      closed := closed + [c.fd];
      bufs := bufs - {c.out};
      bufs := bufs - {c.inp};
      freed := freed + [c.out, c.inp, p];
      ctxs := ctxs - {p};
      assert bufs == old(bufs) - {c.inp, c.out};
    }

    /** The kernel completes the in-flight entry the next choice picks,
        stores what a receive delivers, and posts the completion. */
    method Complete() returns (cqe: Cqe, e: Sqe)
      requires env != [] && inflight != [] && sq == [] && QueueOk()
      modifies this`inflight, this`pending, this`env, this`posted, this`bufs
      ensures var k := old(env[0].pick % |inflight|);
        e == old(inflight[k]) && inflight == old(inflight[..k] + inflight[k + 1..])
      ensures old(pending) == pending + multiset{e} && QueueOk()
      ensures env == old(env[1..])
      ensures cqe == Cqe(Word(e), Result(e, old(env[0])))
      ensures posted == old(posted) + [cqe]
      ensures bufs == Deliver(old(bufs), e, old(env[0]))
    {
      var ch := env[0];
      e := Take(ch.pick % |inflight|);
      env := env[1..];
      cqe := Cqe(Word(e), Result(e, ch));
      posted := posted + [cqe];
      bufs := Deliver(bufs, e, ch);
    }

    /** The kernel finishes the in-flight entry at `k`. */
    method Take(k: int) returns (e: Sqe)
      requires 0 <= k < |inflight| && sq == [] && QueueOk()
      modifies this`inflight, this`pending
      ensures e == old(inflight[k]) && inflight == old(inflight[..k] + inflight[k + 1..])
      ensures old(pending) == pending + multiset{e} && QueueOk()
    {
      e := inflight[k];
      Unsplice(inflight, k);
      inflight := inflight[..k] + inflight[k + 1..];
      pending := multiset(inflight);
    }

    /** `wait_cqe` followed by `hnd_cqe`: one completion is consumed and
        handled, and the invariant holds again. */
    method Step()
      requires !halted && sq == [] && env != [] && inflight != [] && Valid()
      modifies this
      decreases |env|, 0
      ensures Valid() && |env| < old(|env|)
      ensures !halted ==> sq == [] && |seen| == old(|seen|) + 1
    {
      ghost var bufs0 := bufs;
      var cqe, e := Complete();
      HeapAfterDeliver(ctxs, bufs0, owner, brk, e, old(env[0]));
      ReleasedGrow(freed, ctxs, bufs0, brk, ctxs, bufs, brk);
      RetireEntry(pending, e, accept, ctxs, bufs, owner, brk, serv);
      HandleCqe(cqe, e);
    }

    /** The draining loop of `get_sqe`: handle completions while one is ready
        to be peeked. */
    method Drain()
      requires !halted && sq == [] && Valid()
      modifies this
      decreases |env|, 1
      ensures Valid() && |env| <= old(|env|)
      ensures !halted ==> sq == [] && (env == [] || !env[0].ready || inflight == [])
    {
      while !halted && env != [] && env[0].ready && inflight != []
        invariant Valid() && |env| <= old(|env|)
        invariant !halted ==> sq == []
        decreases |env|
      {
        Step();
      }
    }

    /** `get_sqe`: returns once a submission slot is free. With the queue
        full it submits, waits for and handles one completion, drains those
        already posted, and tries again. */
    method GetSqe()
      requires !halted && |sq| <= QUEUE_DEPTH && QueueOk()
      requires |sq| == QUEUE_DEPTH ==> Valid()
      modifies this
      decreases |env|, 2
      ensures |env| <= old(|env|) && QueueOk()
      ensures !halted ==> |sq| < QUEUE_DEPTH
      ensures old(|sq|) < QUEUE_DEPTH ==> unchanged(this)
      ensures old(|sq|) == QUEUE_DEPTH ==> Valid()
      ensures old(|sq|) == QUEUE_DEPTH && !halted ==>
        sq == [] && |env| < old(|env|) && (env == [] || !env[0].ready || inflight == [])
    {
      while |sq| == QUEUE_DEPTH
        invariant !halted && |sq| <= QUEUE_DEPTH && |env| <= old(|env|) && QueueOk()
        invariant old(|sq|) < QUEUE_DEPTH ==> unchanged(this)
        invariant |sq| == QUEUE_DEPTH ==> Valid()
        invariant old(|sq|) == QUEUE_DEPTH ==> Valid()
        invariant old(|sq|) == QUEUE_DEPTH && |sq| < QUEUE_DEPTH ==>
          sq == [] && |env| < old(|env|) && (env == [] || !env[0].ready || inflight == [])
        decreases |sq|
      {
        Submit();
        if env == [] || inflight == [] {
          halted := true;
          return;
        }
        Step();
        if halted {
          return;
        }
        Drain();
        if halted {
          return;
        }
      }
    }

    /** `prep_accept`: allocate a context with no descriptor and no buffers,
        and submit an accept tagged with it. */
    method PrepAccept()
      requires !halted && sq == [] && QueueOk() && NoAccept(pending)
      requires Consistent(pending, ctxs, bufs, owner, brk, serv) && Released(freed, ctxs, bufs, brk)
      modifies this
      decreases |env|, 4
      ensures Quiet() && closed == old(closed) && freed == old(freed) && QueueOk()
      ensures !halted ==>
        old(brk) !in old(ctxs) &&
        ctxs == old(ctxs)[old(brk) := Context(-1, 0, 0, 0, 0)] && brk == old(brk) + CONTEXT_SIZE &&
        accept == AcceptSqe(serv, old(brk)) && Owner(accept) == old(brk) && bufs == old(bufs) &&
        inflight == old(inflight) + [accept] && sq == [] && pending == old(pending) + multiset{accept}
      ensures !halted ==> Consistent(pending, ctxs, bufs, owner, brk, serv) && OnlyAccept(accept, pending)
      ensures !halted ==> Released(freed, ctxs, bufs, brk)
    {
      var p := NewContext();
      if halted {
        return;
      }
      var a := AcceptSqe(serv, p);
      accept := a;
      Enqueue(a);
    }

    /** The allocation of `prep_accept`: a context at the break with no
        descriptor and no buffers, whose accept may then be queued. */
    method NewContext() returns (p: int)
      requires !halted && NoAccept(pending)
      requires Consistent(pending, ctxs, bufs, owner, brk, serv) && Released(freed, ctxs, bufs, brk)
      modifies this`ctxs, this`brk, this`halted
      ensures !halted ==>
        p == old(brk) && p !in old(ctxs) && ctxs == old(ctxs)[p := Context(-1, 0, 0, 0, 0)] &&
        brk == old(brk) + CONTEXT_SIZE && Owner(AcceptSqe(serv, p)) == p &&
        Consistent(pending + multiset{AcceptSqe(serv, p)}, ctxs, bufs, owner, brk, serv) &&
        OnlyAccept(AcceptSqe(serv, p), pending + multiset{AcceptSqe(serv, p)})
      ensures !halted ==> Released(freed, ctxs, bufs, brk)
    {
      p := Malloc(brk, CONTEXT_SIZE);
      if p == 0 {
        halted := true;
        return;
      }
      AcceptStep(pending, ctxs, bufs, owner, brk, serv);
      ReleasedGrow(freed, ctxs, bufs, brk, ctxs[p := Context(-1, 0, 0, 0, 0)], bufs, brk + CONTEXT_SIZE);
      brk := brk + CONTEXT_SIZE;
      ctxs := ctxs[p := Context(-1, 0, 0, 0, 0)];
    }

    /** `prep_recv`: nothing for a failed accept; otherwise adopt the
        descriptor if the context has none, allocate the receive buffer if
        it is missing, and submit a receive of at most `BLK_SIZE` bytes
        linked to a timeout, both tagged with the context. */
    method PrepRecv(fd: int, p: int)
      requires !halted && sq == [] && QueueOk() && p in ctxs && Aligned(p) && Idle(p, pending)
      requires Consistent(pending, ctxs, bufs, owner, brk, serv) && Released(freed, ctxs, bufs, brk)
      modifies this
      decreases |env|, 6
      ensures Quiet() && closed == old(closed) && freed == old(freed) && accept == old(accept) && QueueOk()
      ensures fd < 0 ==> unchanged(this)
      ensures halted ==> fd >= 0 && old(ctxs[p].inp) == 0
      ensures fd >= 0 && !halted ==>
        p in ctxs && (
        var c := old(ctxs[p]);
        var c' := ctxs[p];
        ctxs == old(ctxs)[p := c'] &&
        c'.fd == (if c.fd < 0 then fd else c.fd) &&
        c'.inlen == c.inlen && c'.out == c.out && c'.outlen == c.outlen &&
        (c.inp != 0 ==> c'.inp == c.inp && bufs == old(bufs) && brk == old(brk)) &&
        (c.inp == 0 ==> c'.inp == old(brk) && bufs == old(bufs)[old(brk) := Block()] && brk == old(brk) + BLK_SIZE) &&
        inflight == old(inflight) + [RecvSqe(c', p), TimeoutSqe(p)] && sq == [])
      ensures !halted ==> Consistent(pending, ctxs, bufs, owner, brk, serv)
      ensures !halted && old(NoAccept(pending)) ==> NoAccept(pending)
      ensures !halted && old(OnlyAccept(accept, pending)) ==> OnlyAccept(accept, pending)
      ensures !halted ==> Released(freed, ctxs, bufs, brk)
    {
      if fd < 0 {
        return;
      }
      Arm(fd, p);
    }

    /** The rest of `prep_recv` for a valid descriptor. */
    method Arm(fd: int, p: int)
      requires !halted && sq == [] && QueueOk() && p in ctxs && Aligned(p) && Idle(p, pending) && fd >= 0
      requires Consistent(pending, ctxs, bufs, owner, brk, serv) && Released(freed, ctxs, bufs, brk)
      modifies this
      decreases |env|, 5
      ensures Quiet() && closed == old(closed) && freed == old(freed) && accept == old(accept) && QueueOk()
      ensures halted ==> old(ctxs[p].inp) == 0
      ensures !halted ==>
        p in ctxs && (
        var c := old(ctxs[p]);
        var c' := ctxs[p];
        ctxs == old(ctxs)[p := c'] &&
        c'.fd == (if c.fd < 0 then fd else c.fd) &&
        c'.inlen == c.inlen && c'.out == c.out && c'.outlen == c.outlen &&
        (c.inp != 0 ==> c'.inp == c.inp && bufs == old(bufs) && brk == old(brk)) &&
        (c.inp == 0 ==> c'.inp == old(brk) && bufs == old(bufs)[old(brk) := Block()] && brk == old(brk) + BLK_SIZE) &&
        inflight == old(inflight) + [RecvSqe(c', p), TimeoutSqe(p)] && sq == [])
      ensures !halted ==> Consistent(pending, ctxs, bufs, owner, brk, serv)
      ensures !halted && old(NoAccept(pending)) ==> NoAccept(pending)
      ensures !halted && old(OnlyAccept(accept, pending)) ==> OnlyAccept(accept, pending)
      ensures !halted ==> Released(freed, ctxs, bufs, brk)
    {
      Adopt(fd, p);
      if halted {
        return;
      }
      ghost var m := pending;
      var r, t := RecvSqe(ctxs[p], p), TimeoutSqe(p);
      RecvStep(m, ctxs, bufs, owner, brk, serv, p);
      AddNonAccept(accept, m, multiset{r});
      AddNonAccept(accept, m + multiset{r}, multiset{t});
      Enqueue2(r, t);
    }

    /** The context updates of `prep_recv`: adopt `fd` if the context has no
        descriptor yet, and allocate the receive buffer if it is missing. */
    method Adopt(fd: int, p: int)
      requires !halted && p in ctxs && Aligned(p) && Idle(p, pending) && fd >= 0
      requires Consistent(pending, ctxs, bufs, owner, brk, serv) && Released(freed, ctxs, bufs, brk)
      modifies this`ctxs, this`bufs, this`owner, this`brk, this`halted
      ensures halted ==> old(ctxs[p].inp) == 0
      ensures !halted ==>
        p in ctxs && (
        var c := old(ctxs[p]);
        var c' := ctxs[p];
        ctxs == old(ctxs)[p := c'] &&
        c'.fd == (if c.fd < 0 then fd else c.fd) &&
        c'.inlen == c.inlen && c'.out == c.out && c'.outlen == c.outlen &&
        (c.inp != 0 ==> c'.inp == c.inp && bufs == old(bufs) && brk == old(brk)) &&
        (c.inp == 0 ==> c'.inp == old(brk) && bufs == old(bufs)[old(brk) := Block()] && brk == old(brk) + BLK_SIZE) &&
        c'.fd >= 0 && c'.inp != 0 && Consistent(pending, ctxs, bufs, owner, brk, serv))
      ensures !halted ==> Released(freed, ctxs, bufs, brk)
    {
      ghost var m := pending;
      if ctxs[p].fd < 0 {
        var c := ctxs[p].(fd := fd);
        LiveOk(ctxs, bufs, owner, brk, p);
        HeapAfterSet(ctxs, bufs, owner, brk, p, c);
        EntriesAfterSet(m, ctxs, serv, p, c);
        ReleasedGrow(freed, ctxs, bufs, brk, ctxs[p := c], bufs, brk);
        ctxs := ctxs[p := c];
      }
      if ctxs[p].inp == 0 {
        var b := Malloc(brk, BLK_SIZE);
        if b == 0 {
          halted := true;
          return;
        }
        var c := ctxs[p].(inp := b);
        LiveOk(ctxs, bufs, owner, brk, p);
        HeapAfterBlock(ctxs, bufs, owner, brk, p, c);
        EntriesAfterSet(m, ctxs, serv, p, c);
        ReleasedGrow(freed, ctxs, bufs, brk, ctxs[p := c], bufs[b := Block()], brk + BLK_SIZE);
        ctxs := ctxs[p := c];
        bufs := bufs[b := Block()];
        owner := owner[b := p];
        brk := brk + BLK_SIZE;
      }
    }

    /** `prep_send`: tear the context down when the receive delivered
        nothing or failed; otherwise echo what it delivered. */
    method PrepSend(inlen: int, p: int)
      requires !halted && sq == [] && QueueOk() && p in ctxs && Aligned(p) && Idle(p, pending)
      requires ctxs[p].fd >= 0 && ctxs[p].inp != 0 && CtxOk(p, ctxs[p], bufs, owner) && inlen <= BLK_SIZE
      requires Consistent(pending, ctxs, bufs, owner, brk, serv) && Released(freed, ctxs, bufs, brk)
      modifies this
      decreases |env|, 5
      ensures Quiet() && accept == old(accept) && QueueOk()
      ensures inlen <= 0 ==> !halted && TornDown(p)
      ensures inlen > 0 && !halted ==> Echoing(p, inlen)
      ensures !halted ==> Consistent(pending, ctxs, bufs, owner, brk, serv)
      ensures !halted && old(OnlyAccept(accept, pending)) ==> OnlyAccept(accept, pending)
      ensures !halted ==> Released(freed, ctxs, bufs, brk)
    {
      if inlen <= 0 {
        ContextFree(p);
        return;
      }
      Echo(inlen, p);
    }

    /** The rest of `prep_send`: allocate the send buffer if it is missing,
        copy the `inlen` received bytes into it, and submit a send of exactly
        those bytes. */
    method Echo(inlen: int, p: int)
      requires !halted && sq == [] && QueueOk() && p in ctxs && Aligned(p) && Idle(p, pending)
      requires ctxs[p].fd >= 0 && ctxs[p].inp != 0 && CtxOk(p, ctxs[p], bufs, owner) && 0 < inlen <= BLK_SIZE
      requires Consistent(pending, ctxs, bufs, owner, brk, serv) && Released(freed, ctxs, bufs, brk)
      modifies this
      decreases |env|, 4
      ensures Quiet() && accept == old(accept) && QueueOk()
      ensures !halted ==> Echoing(p, inlen)
      ensures !halted ==> Consistent(pending, ctxs, bufs, owner, brk, serv)
      ensures !halted && old(OnlyAccept(accept, pending)) ==> OnlyAccept(accept, pending)
      ensures !halted ==> Released(freed, ctxs, bufs, brk)
    {
      Fill(inlen, p);
      if halted {
        return;
      }
      Enqueue(SendSqe(ctxs[p], p));
    }

    /** The copy of `prep_send`: record `inlen`, allocate `out` when it is
        missing, copy the first `inlen` received bytes into it and set
        `outlen`. Nothing is queued. */
    method Fill(inlen: int, p: int)
      requires !halted && p in ctxs && Aligned(p) && Idle(p, pending)
      requires ctxs[p].fd >= 0 && ctxs[p].inp != 0 && CtxOk(p, ctxs[p], bufs, owner) && 0 < inlen <= BLK_SIZE
      requires Consistent(pending, ctxs, bufs, owner, brk, serv) && Released(freed, ctxs, bufs, brk)
      modifies this`ctxs, this`bufs, this`owner, this`brk, this`halted
      ensures !halted ==>
        ctxs == old(ctxs)[p := Sent(old(ctxs[p]), inlen, old(brk))] && ctxs[p].out != 0 &&
        bufs == CopyIn(old(bufs), old(ctxs[p]), inlen, old(brk)) &&
        brk == (if old(ctxs[p].out) != 0 then old(brk) else old(brk) + BLK_SIZE) &&
        Consistent(pending + multiset{SendSqe(ctxs[p], p)}, ctxs, bufs, owner, brk, serv) &&
        (OnlyAccept(accept, pending) ==> OnlyAccept(accept, pending + multiset{SendSqe(ctxs[p], p)}))
      ensures !halted ==> Released(freed, ctxs, bufs, brk)
    {
      ghost var m := pending;
      var cs, bs, top := ctxs, bufs, brk;
      ghost var os := owner;
      var c := cs[p].(inlen := inlen);
      HeapAfterSet(cs, bs, os, top, p, c);
      EntriesAfterSet(m, cs, serv, p, c);
      cs := cs[p := c];
      if c.out == 0 {
        var b := Malloc(top, BLK_SIZE);
        if b == 0 {
          halted := true;
          return;
        }
        LiveOk(cs, bs, os, top, p);
        c := c.(out := b);
        HeapAfterBlock(cs, bs, os, top, p, c);
        EntriesAfterSet(m, cs, serv, p, c);
        cs := cs[p := c];
        bs := bs[b := Block()];
        os := os[b := p];
        top := top + BLK_SIZE;
      }
      var data := bs[c.inp][..inlen];
      HeapAfterWrite(cs, bs, os, top, c.out, Store(bs[c.out], data));
      bs := bs[c.out := Store(bs[c.out], data)];
      c := c.(outlen := inlen);
      HeapAfterSet(cs, bs, os, top, p, c);
      EntriesAfterSet(m, cs, serv, p, c);
      cs := cs[p := c];
      SendStep(m, cs, bs, os, top, serv, p);
      AddNonAccept(accept, m, multiset{SendSqe(c, p)});
      ReleasedGrow(freed, ctxs, bufs, brk, cs, bs, top);
      ctxs, bufs, owner, brk := cs, bs, os, top;
    }

    /** `check_send`: tear the context down unless the send reported exactly
        `outlen` bytes (the count is converted to `size_t` for the
        comparison); otherwise arm the next receive on the same descriptor
        and buffer. */
    method CheckSend(res: int, p: int)
      requires !halted && sq == [] && QueueOk() && p in ctxs && Aligned(p) && Idle(p, pending)
      requires ctxs[p].fd >= 0 && ctxs[p].inp != 0
      requires Consistent(pending, ctxs, bufs, owner, brk, serv) && Released(freed, ctxs, bufs, brk)
      modifies this
      decreases |env|, 7
      ensures !halted && Quiet() && accept == old(accept) && QueueOk()
      ensures ToSize(res) != old(ctxs[p].outlen) ==> TornDown(p)
      ensures ToSize(res) == old(ctxs[p].outlen) ==> Rearmed(p)
      ensures Consistent(pending, ctxs, bufs, owner, brk, serv)
      ensures old(OnlyAccept(accept, pending)) ==> OnlyAccept(accept, pending)
      ensures Released(freed, ctxs, bufs, brk)
    {
      if ToSize(res) != ctxs[p].outlen {
        ContextFree(p);
        return;
      }
      PrepRecv(0, p);
    }

    /** `hnd_cqe`: decode the tag, dispatch on its kind to the context it
        names, and mark the completion seen. */
    method HandleCqe(cqe: Cqe, ghost e: Sqe)
      requires !halted && sq == [] && QueueOk() && posted == seen + [cqe] && cqe.userData == Word(e)
      requires Consistent(pending, ctxs, bufs, owner, brk, serv) && Released(freed, ctxs, bufs, brk)
      requires Aligned(Owner(e)) && e.data == IoData(KindOf(e.op), PtrToCtx(Owner(e)))
      requires e.op != LinkTimeout ==>
        Idle(Owner(e), pending) && Owner(e) in ctxs && CtxOk(Owner(e), ctxs[Owner(e)], bufs, owner)
      requires e.op == Accept ==> NoAccept(pending) && ctxs[Owner(e)] == Context(-1, 0, 0, 0, 0)
      requires e.op != Accept ==> OnlyAccept(accept, pending)
      requires e.op == Recv ==> cqe.res <= BLK_SIZE && ctxs[Owner(e)].fd >= 0 && ctxs[Owner(e)].inp != 0
      requires e.op == Send ==> ctxs[Owner(e)].fd >= 0 && ctxs[Owner(e)].inp != 0
      modifies this
      decreases |env|, 8
      ensures QueueOk() && (!halted ==> Consistent(pending, ctxs, bufs, owner, brk, serv) && OnlyAccept(accept, pending))
      ensures env == old(env) && posted == old(posted)
      ensures !halted ==> sq == [] && seen == old(seen) + [cqe] && seen == posted
      ensures e.op != Accept ==> accept == old(accept)
      ensures e.op == LinkTimeout ==>
        !halted && sq == [] && seen == old(seen) + [cqe] &&
        ctxs == old(ctxs) && bufs == old(bufs) && brk == old(brk) && inflight == old(inflight) &&
        closed == old(closed) && freed == old(freed)
      ensures e.op == Accept && !halted ==> Accepted(Owner(e), cqe.res)
      ensures e.op == Recv && cqe.res <= 0 ==> !halted && TornDown(Owner(e))
      ensures e.op == Recv && cqe.res > 0 && !halted ==> Echoing(Owner(e), cqe.res)
      ensures e.op == Send ==> !halted
      ensures e.op == Send && ToSize(cqe.res) != old(ctxs[Owner(e)].outlen) ==> TornDown(Owner(e))
      ensures e.op == Send && ToSize(cqe.res) == old(ctxs[Owner(e)].outlen) ==> Rearmed(Owner(e))
      ensures !halted ==> Released(freed, ctxs, bufs, brk)
    {
      OwnerOf(KindOf(e.op), Owner(e), e);
      var ev := Decode(cqe.userData);
      var p := CtxToPtr(ev.ctx);
      if ev.kind == EV_ACCEPT {
        OnAccept(cqe.res, p);
      } else if ev.kind == EV_RECV {
        PrepSend(cqe.res, p);
      } else if ev.kind == EV_SEND {
        CheckSend(cqe.res, p);
      }
      if !halted {
        seen := seen + [cqe];
      }
    }

    /** The `EV_ACCEPT` case of `hnd_cqe`: arm the first receive of the new
        connection, unless the accept failed, and re-arm the accept. */
    method OnAccept(res: int, p: int)
      requires !halted && sq == [] && QueueOk() && p in ctxs && Aligned(p) && Idle(p, pending)
      requires ctxs[p] == Context(-1, 0, 0, 0, 0) && NoAccept(pending)
      requires Consistent(pending, ctxs, bufs, owner, brk, serv) && Released(freed, ctxs, bufs, brk)
      modifies this
      decreases |env|, 7
      ensures Quiet() && QueueOk()
      ensures !halted ==>
        sq == [] && accept == AcceptSqe(serv, Owner(accept)) && Owner(accept) !in old(ctxs) &&
        Consistent(pending, ctxs, bufs, owner, brk, serv) && OnlyAccept(accept, pending)
      ensures !halted ==> Accepted(p, res)
      ensures !halted ==> Released(freed, ctxs, bufs, brk)
    {
      PrepRecv(res, p);
      if halted {
        return;
      }
      ghost var m := pending;
      PrepAccept();
      if !halted && res < 0 {
        IdleAdd(p, m, accept);
      }
    }

    /** `main` after the setup: submit the first accept, then handle
        completions as long as the kernel posts them. Unless an allocation
        failed, the invariant, and with it exactly one outstanding accept,
        holds when the kernel stops. */
    method Run()
      requires !halted && sq == [] && inflight == [] && pending == multiset{} && ctxs == map[] && bufs == map[]
      requires brk == HEAP_START && freed == [] && seen == posted
      modifies this
      ensures !halted ==> env == [] && Valid() && OnlyAccept(accept, pending)
    {
      PrepAccept();
      while !halted && env != []
        invariant Valid() && (!halted ==> sq == [])
        decreases |env|
      {
        assert accept in pending;
        Step();
      }
    }
  }
}
