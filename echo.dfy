/**
 * The values of the io_uring echo server: the entries `prep_*` put on the
 * ring, the completions the kernel posts, `struct context` (the heap is a map
 * from each context's address), the receive and send buffers, a bump
 * `malloc`, and the invariants that tie the outstanding entries to the
 * contexts they name, with the lemmas that show each step keeps them. The
 * kernel is an environment script: each `Choice` completes one in-flight
 * entry, with a result and, for a receive, the bytes that arrived.
 */
module Echo {
  import opened Codec

  const QUEUE_DEPTH: int := 64
  const BLK_SIZE: int := 4096

  /** `sizeof (struct context)` on x86-64: two 4-byte ints, a 16-byte
      `struct sockaddr`, two pointers and two `size_t`s. */
  const CONTEXT_SIZE: int := 56

  /** The addresses `malloc` hands out: 8-aligned, non-null, and within the
      non-negative range of `intptr_t`. */
  const HEAP_START: int := 0x1000
  const HEAP_END: int := TWO_63

  /** The operations `prep_*` put on the ring. */
  datatype Op = Accept | Recv | Send | LinkTimeout

  /** A submission queue entry: the operation, its descriptor, buffer and
      length, the `IOSQE_IO_LINK` flag, and `user_data`, kept as the
      `union io_data` the program filled in. For an accept the buffer is the
      context whose `addr` and `addrlen` receive the peer. */
  datatype Sqe = Sqe(op: Op, fd: int, buf: int, len: int, link: bool, data: IoData)

  /** A completion queue entry: the kernel copies `user_data` back as the
      64-bit word. */
  datatype Cqe = Cqe(userData: int, res: int)

  /** `struct context` without the peer address: a null pointer is 0. */
  datatype Context = Context(fd: int, inp: int, inlen: int, out: int, outlen: int)

  /** One step of the kernel: which in-flight entry completes (an index,
      taken modulo their number), its result, the bytes a receive delivers,
      and whether the completion is already posted when the program peeks. */
  datatype Choice = Choice(pick: nat, res: int, bytes: seq<bv8>, ready: bool)

  function KindOf(op: Op): int {
    match op
    case LinkTimeout => EV_TIMEOUT
    case Accept => EV_ACCEPT
    case Recv => EV_RECV
    case Send => EV_SEND
  }

  predicate Aligned(p: int) {
    HEAP_START <= p < HEAP_END && p % 8 == 0
  }

  /** The context pointer `hnd_cqe` recovers from an entry's tag. */
  function Owner(e: Sqe): int {
    CtxToPtr(e.data.ctx)
  }

  /** The word the kernel hands back for `e`. */
  function Word(e: Sqe): (u: int)
    ensures IsU64(u)
  {
    Encode(e.data.kind, e.data.ctx)
  }

  /** `malloc(size)`: the next free address, or null when the heap is
      exhausted. */
  function Malloc(brk: int, size: nat): (p: int)
    requires Aligned(brk) || brk == HEAP_END
    ensures p == 0 || (p == brk && Aligned(p) && p + size <= HEAP_END)
  {
    if brk + size <= HEAP_END && brk < HEAP_END then brk else 0
  }

  /** A fresh buffer; `malloc` leaves its contents unspecified and the model
      fills it with zeros. */
  function Block(): (b: seq<bv8>)
    ensures |b| == BLK_SIZE
  {
    seq(BLK_SIZE, _ => 0)
  }

  /** `(size_t)res`: the conversion `check_send` applies to the reported
      byte count before comparing it with `outlen`. */
  function ToSize(res: int): (s: int)
    ensures IsU64(s) && (s - res) % TWO_64 == 0
    ensures IsU64(res) ==> s == res
  {
    res % TWO_64
  }

  /* ----------------------------- the entries ------------------------------ */

  /** What `prep_accept` queues for context `p`. */
  function AcceptSqe(serv: int, p: int): (e: Sqe)
    ensures KindOf(e.op) == EV_ACCEPT && (Aligned(p) ==> Owner(e) == p)
  {
    PtrRoundTrip(p);
    Sqe(Accept, serv, p, 0, false, IoData(EV_ACCEPT, PtrToCtx(p)))
  }

  /** The receive `prep_recv` queues, linked to the timeout after it. */
  function RecvSqe(c: Context, p: int): (e: Sqe)
    ensures KindOf(e.op) == EV_RECV && (Aligned(p) ==> Owner(e) == p)
  {
    PtrRoundTrip(p);
    Sqe(Recv, c.fd, c.inp, BLK_SIZE, true, IoData(EV_RECV, PtrToCtx(p)))
  }

  function TimeoutSqe(p: int): (e: Sqe)
    ensures KindOf(e.op) == EV_TIMEOUT && (Aligned(p) ==> Owner(e) == p)
  {
    PtrRoundTrip(p);
    Sqe(LinkTimeout, -1, 0, 0, false, IoData(EV_TIMEOUT, PtrToCtx(p)))
  }

  function SendSqe(c: Context, p: int): (e: Sqe)
    ensures KindOf(e.op) == EV_SEND && (Aligned(p) ==> Owner(e) == p)
  {
    PtrRoundTrip(p);
    Sqe(Send, c.fd, c.out, c.outlen, false, IoData(EV_SEND, PtrToCtx(p)))
  }

  /** The result the kernel reports for `e` under choice `ch`: a receive
      reports how many bytes it stored, at most its length, unless it fails. */
  function Result(e: Sqe, ch: Choice): (n: int)
    ensures e.op == Recv && ch.res >= 0 && e.len >= 0 ==> 0 <= n <= e.len && n <= |ch.bytes|
    ensures e.op != Recv || ch.res < 0 ==> n == ch.res
  {
    if e.op == Recv && ch.res >= 0 then
      if |ch.bytes| < e.len then |ch.bytes| else e.len
    else ch.res
  }

  /** The receive buffers after the kernel completes `e` under `ch`: a
      successful receive stores the bytes it reports into its buffer. */
  function Deliver(bufs: map<int, seq<bv8>>, e: Sqe, ch: Choice): (r: map<int, seq<bv8>>)
    ensures r.Keys == bufs.Keys
  {
    var n := Result(e, ch);
    if e.op == Recv && 0 <= n && e.buf in bufs && n <= |bufs[e.buf]| && n <= |ch.bytes| then
      bufs[e.buf := Store(bufs[e.buf], ch.bytes[..n])]
    else bufs
  }

  /** The buffer `old_` after `data` is stored at its start: what the kernel
      does for a receive, and what `memcpy` does for `prep_send`. */
  function Store(old_: seq<bv8>, data: seq<bv8>): (r: seq<bv8>)
    requires |data| <= |old_|
    ensures |r| == |old_| && r[..|data|] == data && r[|data|..] == old_[|data|..]
  {
    data + old_[|data|..]
  }


  /** The context `prep_send` leaves behind: `inlen` and `outlen` both the
      received count, and `out` kept, or the block at the break when null. */
  function Sent(c: Context, inlen: int, brk: int): (r: Context)
    ensures r.fd == c.fd && r.inp == c.inp && r.inlen == inlen && r.outlen == r.inlen
    ensures c.out != 0 ==> r.out == c.out
  {
    Context(c.fd, c.inp, inlen, if c.out != 0 then c.out else brk, inlen)
  }

  /** The `memcpy` of `prep_send` stays within bounds: `in` holds at least
      `inlen` bytes and `out`, when present, has room for them. */
  predicate Copyable(bufs: map<int, seq<bv8>>, c: Context, inlen: int) {
    0 <= inlen <= BLK_SIZE && c.inp in bufs && inlen <= |bufs[c.inp]| &&
    (c.out != 0 ==> c.out in bufs && inlen <= |bufs[c.out]|)
  }

  /** The buffers after `prep_send` copies the first `inlen` bytes of `in`
      into `out` (a fresh zeroed block at the break when `out` is null). */
  function CopyIn(bufs: map<int, seq<bv8>>, c: Context, inlen: int, brk: int): (r: map<int, seq<bv8>>)
    requires Copyable(bufs, c, inlen)
    ensures var o := Sent(c, inlen, brk).out;
      o in r && Echoed(bufs[c.inp], r[o], inlen) &&
      |r[o]| == (if c.out != 0 then |bufs[c.out]| else BLK_SIZE) &&
      r[o][inlen..] == (if c.out != 0 then bufs[c.out] else Block())[inlen..]
    ensures var o := Sent(c, inlen, brk).out; r == bufs[o := r[o]]
  {
    var prior := if c.out != 0 then bufs[c.out] else Block();
    bufs[Sent(c, inlen, brk).out := Store(prior, bufs[c.inp][..inlen])]
  }

  /** The echo is exact: the send `prep_send` queues reads exactly the
      `inlen` bytes of the buffer that now holds what `in` held. */
  lemma CopyEchoes(bufs: map<int, seq<bv8>>, c: Context, inlen: int, brk: int, p: int)
    requires Copyable(bufs, c, inlen)
    ensures var o := Sent(c, inlen, brk).out; var r := CopyIn(bufs, c, inlen, brk);
      var s := SendSqe(Sent(c, inlen, brk), p);
      s.buf == o && s.len == inlen && o in r && Echoed(bufs[c.inp], r[o], inlen)
  {
  }

  /* ------------------------------ invariants ------------------------------ */

  /* Each quantified invariant below ranges over a named predicate about one
     element, so that its instances appear only where a proof names them. */

  /** A buffer pointer of context `p`: null, or a live block that `p` owns. */
  ghost predicate BufOk(b: int, p: int, bufs: map<int, seq<bv8>>, owner: map<int, int>) {
    b == 0 || (b in bufs && |bufs[b]| == BLK_SIZE && b in owner && owner[b] == p)
  }

  /** The buffers of context `p` are its own, and `in` and `out` are two
      blocks, not one. */
  ghost predicate CtxOk(p: int, c: Context, bufs: map<int, seq<bv8>>, owner: map<int, int>) {
    BufOk(c.inp, p, bufs, owner) && BufOk(c.out, p, bufs, owner) && (c.inp != 0 ==> c.inp != c.out) &&
    0 <= c.inlen <= BLK_SIZE && 0 <= c.outlen <= BLK_SIZE
  }

  /** If `p` is a live context, it is aligned, below the break, not also a
      buffer, and well formed. */
  ghost predicate LiveCtx(p: int, ctxs: map<int, Context>, bufs: map<int, seq<bv8>>, owner: map<int, int>, brk: int) {
    p in ctxs ==> Aligned(p) && p < brk && p !in bufs && CtxOk(p, ctxs[p], bufs, owner)
  }

  /** If `b` is a live buffer, it lies below the break. */
  ghost predicate BelowBreak(b: int, bufs: map<int, seq<bv8>>, brk: int) {
    b in bufs ==> HEAP_START <= b < brk
  }

  /** The heap: every context is aligned, below the break and well formed;
      every buffer is below the break, so `malloc` never returns a live one. */
  ghost predicate HeapOk(ctxs: map<int, Context>, bufs: map<int, seq<bv8>>, owner: map<int, int>, brk: int) {
    (Aligned(brk) || brk == HEAP_END) &&
    (forall p :: LiveCtx(p, ctxs, bufs, owner, brk)) &&
    (forall b :: BelowBreak(b, bufs, brk))
  }

  /** An entry on the ring or in the kernel: tagged with an aligned context,
      and, unless it is a timeout, describing that live context as it is. */
  ghost predicate EntryOk(e: Sqe, ctxs: map<int, Context>, serv: int) {
    var p := Owner(e);
    Aligned(p) &&
    match e.op
    case LinkTimeout => e == TimeoutSqe(p)
    case Accept => p in ctxs && ctxs[p] == Context(-1, 0, 0, 0, 0) && e == AcceptSqe(serv, p)
    case Recv => p in ctxs && ctxs[p].fd >= 0 && ctxs[p].inp != 0 && e == RecvSqe(ctxs[p], p)
    case Send =>
      p in ctxs && ctxs[p].fd >= 0 && ctxs[p].inp != 0 && ctxs[p].out != 0 &&
      e == SendSqe(ctxs[p], p)
  }

  ghost predicate EntryIn(e: Sqe, m: multiset<Sqe>, ctxs: map<int, Context>, serv: int) {
    e in m ==> EntryOk(e, ctxs, serv)
  }

  ghost predicate EntriesOk(m: multiset<Sqe>, ctxs: map<int, Context>, serv: int) {
    forall e :: EntryIn(e, m, ctxs, serv)
  }

  /** Two outstanding accepts, receives or sends of one context are one entry,
      outstanding once. */
  ghost predicate Unshared(e1: Sqe, e2: Sqe, m: multiset<Sqe>) {
    e1 in m && e2 in m && e1.op != LinkTimeout && e2.op != LinkTimeout && Owner(e1) == Owner(e2)
    ==> e1 == e2 && m[e1] == 1
  }

  /** A context has at most one outstanding accept, receive or send. */
  ghost predicate Exclusive(m: multiset<Sqe>) {
    forall e1, e2 :: Unshared(e1, e2, m)
  }

  ghost predicate NotFor(e: Sqe, p: int, m: multiset<Sqe>) {
    e in m && e.op != LinkTimeout ==> Owner(e) != p
  }

  /** No outstanding accept, receive or send refers to context `p`. */
  ghost predicate Idle(p: int, m: multiset<Sqe>) {
    forall e :: NotFor(e, p, m)
  }

  ghost predicate AcceptIs(e: Sqe, a: Sqe, m: multiset<Sqe>) {
    e in m && e.op == Accept ==> e == a
  }

  /** `a` is the only accept outstanding. */
  ghost predicate OnlyAccept(a: Sqe, m: multiset<Sqe>) {
    a in m && a.op == Accept && forall e :: AcceptIs(e, a, m)
  }

  ghost predicate NotAccept(e: Sqe, m: multiset<Sqe>) {
    e in m ==> e.op != Accept
  }

  ghost predicate NoAccept(m: multiset<Sqe>) {
    forall e :: NotAccept(e, m)
  }

  ghost predicate Consistent(m: multiset<Sqe>, ctxs: map<int, Context>, bufs: map<int, seq<bv8>>,
                             owner: map<int, int>, brk: int, serv: int) {
    HeapOk(ctxs, bufs, owner, brk) && EntriesOk(m, ctxs, serv) && Exclusive(m)
  }

  /** A pointer handed to `free`, unless null, was allocated below the break
      and is neither a live context nor a live buffer. */
  ghost predicate Gone(x: int, ctxs: map<int, Context>, bufs: map<int, seq<bv8>>, brk: int) {
    x != 0 ==> x < brk && x !in ctxs && x !in bufs
  }

  /** The `i`-th pointer handed to `free`, unless null, is not handed to it
      again at `j`. */
  ghost predicate Once(i: int, j: int, freed: seq<int>) {
    0 <= i < j < |freed| && freed[i] != 0 ==> freed[i] != freed[j]
  }

  /** Every pointer freed so far is gone, and none was freed twice. */
  ghost predicate Released(freed: seq<int>, ctxs: map<int, Context>, bufs: map<int, seq<bv8>>, brk: int) {
    (forall k :: 0 <= k < |freed| ==> Gone(freed[k], ctxs, bufs, brk)) &&
    (forall i, j :: Once(i, j, freed))
  }

  /** `n` bytes of `src` were copied to the start of `dst`. */
  ghost predicate Echoed(src: seq<bv8>, dst: seq<bv8>, n: int) {
    0 <= n <= |src| && n <= |dst| && dst[..n] == src[..n]
  }

  /* ------------------------ lemmas on the invariants ----------------------- */

  /** The tag of an entry built for `p` names `p`, and the word the kernel
      hands back for it decodes to its kind and to `p`. */
  lemma OwnerOf(kind: int, p: int, e: Sqe)
    requires EV_TIMEOUT <= kind <= EV_SEND && Aligned(p) && e.data == IoData(kind, PtrToCtx(p))
    ensures Owner(e) == p && Word(e) == Tag(kind, p)
    ensures Decode(Word(e)).kind == kind && CtxToPtr(Decode(Word(e)).ctx) == p
  {
    PtrRoundTrip(p);
    TagRoundTrip(kind, p);
  }

  /** With `a` the only accept, it is outstanding exactly once: together with
      the invariant this is "exactly one accept is outstanding". */
  lemma ExactlyOneAccept(a: Sqe, m: multiset<Sqe>)
    requires Exclusive(m) && OnlyAccept(a, m)
    ensures m[a] == 1
    ensures forall e :: e in m && e.op == Accept ==> e == a
  {
    assert Unshared(a, a, m);
    forall e | e in m && e.op == Accept
      ensures e == a
    {
      assert AcceptIs(e, a, m);
    }
  }

  /** Removing the only accept leaves none. */
  lemma RemoveOnlyAccept(a: Sqe, m: multiset<Sqe>)
    requires Exclusive(m + multiset{a}) && OnlyAccept(a, m + multiset{a})
    ensures NoAccept(m)
  {
    assert Unshared(a, a, m + multiset{a});
    forall e
      ensures NotAccept(e, m)
    {
      assert AcceptIs(e, a, m + multiset{a});
    }
  }

  /** A live context is well formed. */
  lemma LiveOk(ctxs: map<int, Context>, bufs: map<int, seq<bv8>>, owner: map<int, int>, brk: int, p: int)
    requires HeapOk(ctxs, bufs, owner, brk) && p in ctxs
    ensures Aligned(p) && p < brk && CtxOk(p, ctxs[p], bufs, owner)
    ensures ctxs[p].inp < brk && ctxs[p].out < brk
  {
    assert LiveCtx(p, ctxs, bufs, owner, brk);
    assert BelowBreak(ctxs[p].inp, bufs, brk) && BelowBreak(ctxs[p].out, bufs, brk);
  }

  /** A context that is not live has no outstanding accept, receive or send. */
  lemma IdleFresh(m: multiset<Sqe>, ctxs: map<int, Context>, serv: int, p: int)
    requires EntriesOk(m, ctxs, serv) && p !in ctxs
    ensures Idle(p, m)
  {
    forall e
      ensures NotFor(e, p, m)
    {
      assert EntryIn(e, m, ctxs, serv);
    }
  }

  /** Entries that do not mention `p` are unaffected when `p` changes. */
  lemma EntriesAfterSet(m: multiset<Sqe>, ctxs: map<int, Context>, serv: int, p: int, c: Context)
    requires EntriesOk(m, ctxs, serv) && Idle(p, m)
    ensures EntriesOk(m, ctxs[p := c], serv)
  {
    var ctxs' := ctxs[p := c];
    forall e
      ensures EntryIn(e, m, ctxs', serv)
    {
      assert EntryIn(e, m, ctxs, serv);
      assert NotFor(e, p, m);
    }
  }

  /** ... or when `p` is freed. */
  lemma EntriesAfterFree(m: multiset<Sqe>, ctxs: map<int, Context>, serv: int, p: int)
    requires EntriesOk(m, ctxs, serv) && Idle(p, m)
    ensures EntriesOk(m, ctxs - {p}, serv)
  {
    forall e
      ensures EntryIn(e, m, ctxs - {p}, serv)
    {
      assert EntryIn(e, m, ctxs, serv);
      assert NotFor(e, p, m);
    }
  }

  /** Queueing a well-formed entry for an idle context (or a timeout) keeps
      every entry well formed and every context exclusive. */
  lemma AddEntry(m: multiset<Sqe>, e: Sqe, ctxs: map<int, Context>, serv: int)
    requires EntriesOk(m, ctxs, serv) && Exclusive(m) && EntryOk(e, ctxs, serv)
    requires e.op != LinkTimeout ==> Idle(Owner(e), m)
    ensures EntriesOk(m + multiset{e}, ctxs, serv) && Exclusive(m + multiset{e})
  {
    var m' := m + multiset{e};
    forall x
      ensures EntryIn(x, m', ctxs, serv)
    {
      assert EntryIn(x, m, ctxs, serv);
    }
    if e.op != LinkTimeout {
      assert NotFor(e, Owner(e), m);
    }
    forall e1, e2
      ensures Unshared(e1, e2, m')
    {
      assert Unshared(e1, e2, m);
      if e.op != LinkTimeout {
        assert NotFor(e1, Owner(e), m) && NotFor(e2, Owner(e), m);
      }
    }
  }

  /** What the program may rely on once the kernel has completed `e`, one of
      the outstanding entries `m + {e}`: the rest is still consistent, `e`
      carries the tag of its kind and context, and that context is as `e`
      describes it and has nothing else outstanding. */
  lemma RetireEntry(m: multiset<Sqe>, e: Sqe, a: Sqe, ctxs: map<int, Context>, bufs: map<int, seq<bv8>>,
                    owner: map<int, int>, brk: int, serv: int)
    requires Consistent(m + multiset{e}, ctxs, bufs, owner, brk, serv) && OnlyAccept(a, m + multiset{e})
    ensures Consistent(m, ctxs, bufs, owner, brk, serv)
    ensures Aligned(Owner(e)) && e.data == IoData(KindOf(e.op), PtrToCtx(Owner(e)))
    ensures e.op != LinkTimeout ==>
      Idle(Owner(e), m) && Owner(e) in ctxs && CtxOk(Owner(e), ctxs[Owner(e)], bufs, owner)
    ensures e.op == Accept ==> e == a && NoAccept(m) && ctxs[Owner(e)] == Context(-1, 0, 0, 0, 0)
    ensures e.op != Accept ==> OnlyAccept(a, m)
    ensures e.op == Recv ==> e.len == BLK_SIZE && ctxs[Owner(e)].fd >= 0 && ctxs[Owner(e)].inp != 0
    ensures e.op == Send ==> ctxs[Owner(e)].fd >= 0 && ctxs[Owner(e)].inp != 0 && ctxs[Owner(e)].out != 0
  {
    var m' := m + multiset{e};
    assert EntryIn(e, m', ctxs, serv);
    forall x
      ensures EntryIn(x, m, ctxs, serv)
    {
      assert EntryIn(x, m', ctxs, serv);
    }
    forall e1, e2
      ensures Unshared(e1, e2, m)
    {
      assert Unshared(e1, e2, m');
    }
    if e.op != LinkTimeout {
      LiveOk(ctxs, bufs, owner, brk, Owner(e));
      forall x
        ensures NotFor(x, Owner(e), m)
      {
        assert Unshared(x, e, m');
      }
    }
    if e.op == Accept {
      assert AcceptIs(e, a, m');
      RemoveOnlyAccept(a, m);
    } else {
      forall x
        ensures AcceptIs(x, a, m)
      {
        assert AcceptIs(x, a, m');
      }
    }
  }

  /** Removing a context and its buffers keeps the heap well formed. */
  lemma HeapAfterFree(ctxs: map<int, Context>, bufs: map<int, seq<bv8>>, owner: map<int, int>, brk: int, p: int)
    requires HeapOk(ctxs, bufs, owner, brk) && p in ctxs
    ensures HeapOk(ctxs - {p}, bufs - {ctxs[p].inp, ctxs[p].out}, owner, brk)
  {
    var c := ctxs[p];
    var bufs' := bufs - {c.inp, c.out};
    assert LiveCtx(p, ctxs, bufs, owner, brk);
    forall q
      ensures LiveCtx(q, ctxs - {p}, bufs', owner, brk)
    {
      assert LiveCtx(q, ctxs, bufs, owner, brk);
    }
    forall b
      ensures BelowBreak(b, bufs', brk)
    {
      assert BelowBreak(b, bufs, brk);
    }
  }

  /** Allocating at the break and moving it up keeps every freed pointer
      gone: none is at or above the old break. */
  lemma ReleasedGrow(freed: seq<int>, ctxs: map<int, Context>, bufs: map<int, seq<bv8>>, brk: int,
                     ctxs': map<int, Context>, bufs': map<int, seq<bv8>>, brk': int)
    requires Released(freed, ctxs, bufs, brk) && brk <= brk'
    requires ctxs'.Keys <= ctxs.Keys + {brk} && bufs'.Keys <= bufs.Keys + {brk}
    ensures Released(freed, ctxs', bufs', brk')
  {
    forall k | 0 <= k < |freed|
      ensures Gone(freed[k], ctxs', bufs', brk')
    {
      assert Gone(freed[k], ctxs, bufs, brk);
    }
  }

  /** `context_free` on a live context frees `out`, `in` and the context,
      each one not freed before, and each at most once. */
  lemma ReleasedAfterFree(ctxs: map<int, Context>, bufs: map<int, seq<bv8>>, owner: map<int, int>, brk: int,
                          freed: seq<int>, p: int)
    requires HeapOk(ctxs, bufs, owner, brk) && Released(freed, ctxs, bufs, brk) && p in ctxs
    ensures Released(freed + [ctxs[p].out, ctxs[p].inp, p], ctxs - {p}, bufs - {ctxs[p].inp, ctxs[p].out}, brk)
  {
    var c := ctxs[p];
    var f := freed + [c.out, c.inp, p];
    var ctxs', bufs' := ctxs - {p}, bufs - {c.inp, c.out};
    assert LiveCtx(p, ctxs, bufs, owner, brk);
    assert BelowBreak(c.inp, bufs, brk) && BelowBreak(c.out, bufs, brk);
    assert LiveCtx(c.inp, ctxs, bufs, owner, brk) && LiveCtx(c.out, ctxs, bufs, owner, brk);
    forall k | 0 <= k < |f|
      ensures Gone(f[k], ctxs', bufs', brk)
    {
      if k < |freed| {
        assert Gone(freed[k], ctxs, bufs, brk);
      }
    }
    forall i, j
      ensures Once(i, j, f)
    {
      if 0 <= i < j < |freed| {
        assert Once(i, j, freed);
      } else if 0 <= i < |freed| <= j < |f| {
        assert Gone(freed[i], ctxs, bufs, brk);
      }
    }
  }

  /** Replacing the context at `p` by a well-formed one keeps the heap well
      formed. */
  lemma HeapAfterSet(ctxs: map<int, Context>, bufs: map<int, seq<bv8>>, owner: map<int, int>, brk: int,
                     p: int, c: Context)
    requires HeapOk(ctxs, bufs, owner, brk) && p in ctxs && CtxOk(p, c, bufs, owner)
    ensures HeapOk(ctxs[p := c], bufs, owner, brk)
  {
    var ctxs' := ctxs[p := c];
    forall q
      ensures LiveCtx(q, ctxs', bufs, owner, brk)
    {
      assert LiveCtx(q, ctxs, bufs, owner, brk);
    }
  }

  /** A context allocated at the break is not live yet, and the heap stays
      well formed once the break moves past it. */
  lemma HeapAfterContext(ctxs: map<int, Context>, bufs: map<int, seq<bv8>>, owner: map<int, int>, brk: int)
    requires HeapOk(ctxs, bufs, owner, brk) && Aligned(brk) && brk + CONTEXT_SIZE <= HEAP_END
    ensures brk !in ctxs
    ensures HeapOk(ctxs[brk := Context(-1, 0, 0, 0, 0)], bufs, owner, brk + CONTEXT_SIZE)
  {
    var ctxs' := ctxs[brk := Context(-1, 0, 0, 0, 0)];
    var brk' := brk + CONTEXT_SIZE;
    assert LiveCtx(brk, ctxs, bufs, owner, brk) && BelowBreak(brk, bufs, brk);
    forall q
      ensures LiveCtx(q, ctxs', bufs, owner, brk')
    {
      assert LiveCtx(q, ctxs, bufs, owner, brk);
    }
    forall b
      ensures BelowBreak(b, bufs, brk')
    {
      assert BelowBreak(b, bufs, brk);
    }
  }

  /** Giving the live context `p` a fresh block at the break keeps the heap
      well formed once the break moves past it. */
  lemma HeapAfterBlock(ctxs: map<int, Context>, bufs: map<int, seq<bv8>>, owner: map<int, int>, brk: int,
                       p: int, c: Context)
    requires HeapOk(ctxs, bufs, owner, brk) && p in ctxs && Aligned(brk) && brk + BLK_SIZE <= HEAP_END
    requires CtxOk(p, c, bufs[brk := Block()], owner[brk := p])
    ensures brk !in bufs
    ensures HeapOk(ctxs[p := c], bufs[brk := Block()], owner[brk := p], brk + BLK_SIZE)
  {
    var bufs' := bufs[brk := Block()];
    var owner' := owner[brk := p];
    var ctxs' := ctxs[p := c];
    var brk' := brk + BLK_SIZE;
    assert BelowBreak(brk, bufs, brk) && LiveCtx(brk, ctxs, bufs, owner, brk);
    forall q
      ensures LiveCtx(q, ctxs', bufs', owner', brk')
    {
      assert LiveCtx(q, ctxs, bufs, owner, brk);
      if q in ctxs && q != p {
        assert BelowBreak(ctxs[q].inp, bufs, brk) && BelowBreak(ctxs[q].out, bufs, brk);
      }
    }
    forall b
      ensures BelowBreak(b, bufs', brk')
    {
      assert BelowBreak(b, bufs, brk);
    }
  }

  /** Overwriting a live buffer with as many bytes keeps the heap well formed. */
  lemma HeapAfterWrite(ctxs: map<int, Context>, bufs: map<int, seq<bv8>>, owner: map<int, int>, brk: int,
                       b: int, data: seq<bv8>)
    requires HeapOk(ctxs, bufs, owner, brk) && b in bufs && |data| == |bufs[b]|
    ensures HeapOk(ctxs, bufs[b := data], owner, brk)
  {
    var bufs' := bufs[b := data];
    forall q
      ensures LiveCtx(q, ctxs, bufs', owner, brk)
    {
      assert LiveCtx(q, ctxs, bufs, owner, brk);
    }
    forall b'
      ensures BelowBreak(b', bufs', brk)
    {
      assert BelowBreak(b', bufs, brk);
    }
  }

  /** What the kernel stores for a receive keeps the heap well formed. */
  lemma HeapAfterDeliver(ctxs: map<int, Context>, bufs: map<int, seq<bv8>>, owner: map<int, int>, brk: int,
                         e: Sqe, ch: Choice)
    requires HeapOk(ctxs, bufs, owner, brk)
    ensures HeapOk(ctxs, Deliver(bufs, e, ch), owner, brk)
  {
    var n := Result(e, ch);
    if e.op == Recv && 0 <= n && e.buf in bufs && n <= |bufs[e.buf]| && n <= |ch.bytes| {
      HeapAfterWrite(ctxs, bufs, owner, brk, e.buf, Store(bufs[e.buf], ch.bytes[..n]));
    }
  }

  /** `prep_accept` keeps the invariant: the context it allocates at the break
      is new, and its accept is then the only one outstanding. */
  lemma AcceptStep(m: multiset<Sqe>, ctxs: map<int, Context>, bufs: map<int, seq<bv8>>,
                   owner: map<int, int>, brk: int, serv: int)
    requires Consistent(m, ctxs, bufs, owner, brk, serv) && NoAccept(m)
    requires Aligned(brk) && brk + CONTEXT_SIZE <= HEAP_END
    ensures brk !in ctxs && Owner(AcceptSqe(serv, brk)) == brk
    ensures Consistent(m + multiset{AcceptSqe(serv, brk)}, ctxs[brk := Context(-1, 0, 0, 0, 0)], bufs, owner,
                       brk + CONTEXT_SIZE, serv)
    ensures OnlyAccept(AcceptSqe(serv, brk), m + multiset{AcceptSqe(serv, brk)})
  {
    var p := brk;
    var a := AcceptSqe(serv, p);
    var ctxs' := ctxs[p := Context(-1, 0, 0, 0, 0)];
    HeapAfterContext(ctxs, bufs, owner, brk);
    IdleFresh(m, ctxs, serv, p);
    EntriesAfterSet(m, ctxs, serv, p, Context(-1, 0, 0, 0, 0));
    OwnerOf(EV_ACCEPT, p, a);
    AddEntry(m, a, ctxs', serv);
    forall x
      ensures AcceptIs(x, a, m + multiset{a})
    {
      assert NotAccept(x, m);
    }
  }

  /** `prep_recv` keeps the invariant: an idle live context with a descriptor
      and a receive buffer may have its receive and linked timeout queued. */
  lemma RecvStep(m: multiset<Sqe>, ctxs: map<int, Context>, bufs: map<int, seq<bv8>>,
                 owner: map<int, int>, brk: int, serv: int, p: int)
    requires Consistent(m, ctxs, bufs, owner, brk, serv) && Idle(p, m) && Aligned(p)
    requires p in ctxs && ctxs[p].fd >= 0 && ctxs[p].inp != 0
    ensures Consistent(m + multiset{RecvSqe(ctxs[p], p)} + multiset{TimeoutSqe(p)}, ctxs, bufs, owner, brk, serv)
  {
    var r := RecvSqe(ctxs[p], p);
    var t := TimeoutSqe(p);
    OwnerOf(EV_RECV, p, r);
    OwnerOf(EV_TIMEOUT, p, t);
    AddEntry(m, r, ctxs, serv);
    AddEntry(m + multiset{r}, t, ctxs, serv);
  }

  /** `prep_send` keeps the invariant: an idle live context with both buffers
      may have its send queued. */
  lemma SendStep(m: multiset<Sqe>, ctxs: map<int, Context>, bufs: map<int, seq<bv8>>,
                 owner: map<int, int>, brk: int, serv: int, p: int)
    requires Consistent(m, ctxs, bufs, owner, brk, serv) && Idle(p, m) && Aligned(p)
    requires p in ctxs && ctxs[p].fd >= 0 && ctxs[p].inp != 0 && ctxs[p].out != 0
    ensures Consistent(m + multiset{SendSqe(ctxs[p], p)}, ctxs, bufs, owner, brk, serv)
  {
    OwnerOf(EV_SEND, p, SendSqe(ctxs[p], p));
    AddEntry(m, SendSqe(ctxs[p], p), ctxs, serv);
  }

  /** Queueing an entry that does not name `p` keeps `p` idle. */
  lemma IdleAdd(p: int, m: multiset<Sqe>, e: Sqe)
    requires Idle(p, m) && (e.op != LinkTimeout ==> Owner(e) != p)
    ensures Idle(p, m + multiset{e})
  {
    forall x
      ensures NotFor(x, p, m + multiset{e})
    {
      assert NotFor(x, p, m);
    }
  }

  /** Queueing entries other than accepts keeps "no accept" and "only `a`". */
  lemma AddNonAccept(a: Sqe, m: multiset<Sqe>, n: multiset<Sqe>)
    requires forall e :: e in n ==> e.op != Accept
    ensures NoAccept(m) ==> NoAccept(m + n)
    ensures OnlyAccept(a, m) ==> OnlyAccept(a, m + n)
  {
    var m' := m + n;
    if NoAccept(m) {
      forall e
        ensures NotAccept(e, m')
      {
        assert NotAccept(e, m);
      }
    }
    if OnlyAccept(a, m) {
      forall e
        ensures AcceptIs(e, a, m')
      {
        assert AcceptIs(e, a, m);
      }
    }
  }
}
