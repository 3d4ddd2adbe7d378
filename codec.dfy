/**
 * The completion tag of the echo server: `union io_data` overlays a 64-bit
 * `user_data` word with two signed bit-fields, `ctx : 61` and `type : 3`.
 * Bit-field order is implementation-defined; this model fixes GCC's x86-64
 * layout, where `ctx` occupies bits 0..60 and `type` bits 61..63.
 * `PTR_TO_CTX` keeps a context pointer in the 61-bit field by an arithmetic
 * shift right by 3, and `CTX_TO_PTR` restores it by a shift left by 3.
 */
module Codec {

  /** The event kinds of the anonymous `enum`, in declaration order. */
  const EV_TIMEOUT: int := 0
  const EV_ACCEPT: int := 1
  const EV_RECV: int := 2
  const EV_SEND: int := 3

  const TWO_60: int := 0x1000_0000_0000_0000
  const TWO_61: int := 0x2000_0000_0000_0000
  const TWO_63: int := 0x8000_0000_0000_0000
  const TWO_64: int := 0x1_0000_0000_0000_0000

  /** A value of `__u64`. */
  predicate IsU64(u: int) {
    0 <= u < TWO_64
  }

  /** A value of `intptr_t` on x86-64. */
  predicate IsIntPtr(p: int) {
    -TWO_63 <= p < TWO_63
  }

  /** The values a signed 3-bit field holds. */
  predicate FitsType(kind: int) {
    -4 <= kind < 4
  }

  /** The values a signed 61-bit field holds. */
  predicate FitsCtx(c: int) {
    -TWO_60 <= c < TWO_60
  }

  /** The two bit-fields of the union as the program reads them. */
  datatype IoData = IoData(kind: int, ctx: int)

  /** Reading a 3-bit field as two's complement. */
  function Signed3(b: int): (v: int)
    requires 0 <= b < 8
    ensures FitsType(v) && v % 8 == b
  {
    if b < 4 then b else b - 8
  }

  /** Reading a 61-bit field as two's complement. */
  function Signed61(b: int): (v: int)
    requires 0 <= b < TWO_61
    ensures FitsCtx(v) && v % TWO_61 == b
  {
    if b < TWO_60 then b else b - TWO_61
  }

  /** `ev.type = kind; ev.ctx = ctx; ... ev.u64`: each assignment keeps the
      low bits of its value, and the word is the two fields side by side. */
  function Encode(kind: int, ctx: int): (u: int)
    ensures IsU64(u)
    ensures u / TWO_61 == kind % 8 && u % TWO_61 == ctx % TWO_61
  {
    (kind % 8) * TWO_61 + ctx % TWO_61
  }

  /** `union io_data ev = { u }` followed by reads of `ev.type` and `ev.ctx`. */
  function Decode(u: int): (d: IoData)
    requires IsU64(u)
    ensures FitsType(d.kind) && FitsCtx(d.ctx)
    ensures d.kind % 8 == u / TWO_61 && d.ctx % TWO_61 == u % TWO_61
  {
    IoData(Signed3(u / TWO_61), Signed61(u % TWO_61))
  }

  /** `PTR_TO_CTX(ptr)`: `(intptr_t)ptr >> 3`, which GCC compiles to an
      arithmetic shift, that is, division by 8 rounding down. */
  function PtrToCtx(p: int): (c: int)
    ensures c * 8 <= p < c * 8 + 8
  {
    p / 8
  }

  /** `CTX_TO_PTR(ctx)`: `(intptr_t)ctx << 3`; the pointer is 8-aligned and
      `PTR_TO_CTX` gives the field value back. */
  function CtxToPtr(c: int): (p: int)
    ensures p % 8 == 0 && PtrToCtx(p) == c
  {
    c * 8
  }

  /** A field value that fits its field is read back unchanged. */
  lemma Signed3Fits(kind: int)
    requires FitsType(kind)
    ensures Signed3(kind % 8) == kind
  {
  }

  lemma Signed61Fits(c: int)
    requires FitsCtx(c)
    ensures Signed61(c % TWO_61) == c
  {
  }

  /** Writing two fitting fields and reading them back gives them back. */
  lemma DecodeEncode(kind: int, ctx: int)
    requires FitsType(kind) && FitsCtx(ctx)
    ensures Decode(Encode(kind, ctx)) == IoData(kind, ctx)
  {
    var u := Encode(kind, ctx);
    Signed3Fits(kind);
    Signed61Fits(ctx);
    assert Decode(u) == IoData(Signed3(kind % 8), Signed61(ctx % TWO_61));
  }

  /** Every 64-bit word is the encoding of the fields it decodes to: the union
      is a bijection between words and pairs of fitting fields. */
  lemma EncodeDecode(u: int)
    requires IsU64(u)
    ensures Encode(Decode(u).kind, Decode(u).ctx) == u
  {
    var d := Decode(u);
    assert Encode(d.kind, d.ctx) == (u / TWO_61) * TWO_61 + u % TWO_61;
  }

  /** `CTX_TO_PTR(PTR_TO_CTX(p))` clears the low three bits of `p`. */
  lemma PtrRoundTrip(p: int)
    ensures CtxToPtr(PtrToCtx(p)) == p - p % 8
  {
  }

  /** Every `intptr_t` value, shifted right by 3, fits the 61-bit field. */
  lemma PtrToCtxFits(p: int)
    requires IsIntPtr(p)
    ensures FitsCtx(PtrToCtx(p))
  {
  }

  /** The completion tag `user_data` that `prep_*` attach to a context. */
  function Tag(kind: int, p: int): (u: int)
    ensures IsU64(u)
  {
    Encode(kind, PtrToCtx(p))
  }

  /** `hnd_cqe` recovers, from the tag of any of the four event kinds and any
      8-aligned context pointer, exactly that kind and that pointer. */
  lemma TagRoundTrip(kind: int, p: int)
    requires EV_TIMEOUT <= kind <= EV_SEND && IsIntPtr(p) && p % 8 == 0
    ensures Decode(Tag(kind, p)).kind == kind
    ensures CtxToPtr(Decode(Tag(kind, p)).ctx) == p
  {
    PtrToCtxFits(p);
    DecodeEncode(kind, PtrToCtx(p));
    PtrRoundTrip(p);
  }

  /** Tags of different kinds or different aligned contexts differ. */
  lemma TagInjective(k1: int, p1: int, k2: int, p2: int)
    requires EV_TIMEOUT <= k1 <= EV_SEND && IsIntPtr(p1) && p1 % 8 == 0
    requires EV_TIMEOUT <= k2 <= EV_SEND && IsIntPtr(p2) && p2 % 8 == 0
    ensures Tag(k1, p1) == Tag(k2, p2) <==> k1 == k2 && p1 == p2
  {
    TagRoundTrip(k1, p1);
    TagRoundTrip(k2, p2);
  }
}
