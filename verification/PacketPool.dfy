/** `Packet::alloc`, `free`, `refcopy`, `copy` and the data setters: an intrusive free list with reference counts. */
module PacketPool {

  datatype Option<T> = None | Some(value: T)

  // Words of the common header that alloc sets.
  const NEXT_HOP := 0
  const LAST_HOP := 1
  const DIRECTION := 2
  const DOWN := -1

  class Packet {
    const bits: array<int>
    var data: Option<seq<int>>
    var fflag: bool
    var refCount: int
    var next: Packet?
    var uid: int
    var time: real

    constructor (hdrlen: nat)
      ensures fresh(bits) && bits.Length == hdrlen
      ensures data == None && refCount == 0 && next == null && uid == 0 && time == 0.0
    {
      bits := new int[hdrlen](_ => 0);
      data, refCount, next, uid, time := None, 0, null, 0, 0.0;
    }
  }

  /** The header of every packet that alloc returns: zero but for the two hops and the direction. */
  function FreshHeader(hdrlen: nat): (h: seq<int>)
    ensures |h| == hdrlen
  {
    seq(hdrlen, i => if i == NEXT_HOP || i == LAST_HOP then -2 else if i == DIRECTION then DOWN else 0)
  }

  // ---------------------------------------------------------------- the pool as a value

  /** The free list, and the reference count of every packet in use. */
  datatype Pool = Pool(free: seq<Packet>, refs: map<Packet, nat>)

  datatype Op = Alloc(p: Packet) | Free(p: Packet) | RefCopy(p: Packet)

  ghost predicate PoolOK(s: Pool) {
    && (forall i :: 0 <= i < |s.free| ==> s.free[i] !in s.refs)
    && (forall i, j :: 0 <= i < j < |s.free| ==> s.free[i] != s.free[j])
  }

  /** alloc takes the first free packet, or one never seen; refcopy needs a packet in use. */
  predicate Allowed(s: Pool, op: Op) {
    match op
    case Alloc(p) => if s.free != [] then p == s.free[0] else p !in s.refs
    case Free(p) => true
    case RefCopy(p) => p in s.refs
  }

  function After(s: Pool, op: Op): Pool
    requires Allowed(s, op)
  {
    match op
    case Alloc(p) => Pool(if s.free != [] then s.free[1..] else [], s.refs[p := 0])
    case Free(p) =>
      if p !in s.refs then s
      else if s.refs[p] == 0 then Pool([p] + s.free, s.refs - {p})
      else Pool(s.free, s.refs[p := s.refs[p] - 1])
    case RefCopy(p) => Pool(s.free, s.refs[p := s.refs[p] + 1])
  }

  predicate AllowedRun(s: Pool, ops: seq<Op>)
    decreases |ops|, 0
  {
    ops == [] || (AllowedRun(s, ops[..|ops| - 1]) && Allowed(Result(s, ops[..|ops| - 1]), ops[|ops| - 1]))
  }

  function Result(s: Pool, ops: seq<Op>): Pool
    requires AllowedRun(s, ops)
    decreases |ops|, 1
  {
    if ops == [] then s else After(Result(s, ops[..|ops| - 1]), ops[|ops| - 1])
  }

  /** Outstanding references of p: those it had, plus the refcopies, minus the frees. */
  function Balance(start: int, ops: seq<Op>, p: Packet): int {
    if ops == [] then start
    else
      var b := Balance(start, ops[..|ops| - 1], p);
      if ops[|ops| - 1] == RefCopy(p) then b + 1 else if ops[|ops| - 1] == Free(p) then b - 1 else b
  }

  /** Over any run the free list stays without repetition and without packets in use; so alloc never hands out a packet
      in use. */
  lemma {:induction false} RunKeepsPool(s: Pool, ops: seq<Op>)
    requires PoolOK(s) && AllowedRun(s, ops)
    ensures PoolOK(Result(s, ops))
    ensures forall p :: Allowed(Result(s, ops), Alloc(p)) ==> p !in Result(s, ops).refs
  {
    if ops != [] { RunKeepsPool(s, ops[..|ops| - 1]); }
  }

  /** A packet stays in use, with exactly its outstanding references, as long as they have never gone below zero. */
  lemma {:induction false} InUseWhileReferenced(s: Pool, ops: seq<Op>, p: Packet)
    requires PoolOK(s) && AllowedRun(s, ops) && p in s.refs
    requires forall j :: 0 <= j <= |ops| ==> Balance(s.refs[p], ops[..j], p) >= 0
    ensures p in Result(s, ops).refs && Result(s, ops).refs[p] == Balance(s.refs[p], ops, p)
  {
    assert ops[..|ops|] == ops;
    if ops != [] {
      var rest := ops[..|ops| - 1];
      forall j | 0 <= j <= |rest| ensures Balance(s.refs[p], rest[..j], p) >= 0 {
        assert rest[..j] == ops[..j];
      }
      InUseWhileReferenced(s, rest, p);
      RunKeepsPool(s, rest);
    }
  }

  /** With k references outstanding, whatever happens to other packets, p comes back to the pool on the (k+1)-th more
      free than refcopy, and not before. */
  lemma {:induction false} ReturnsOnLastFree(s: Pool, ops: seq<Op>, p: Packet)
    requires PoolOK(s) && AllowedRun(s, ops + [Free(p)]) && p in s.refs
    requires forall j :: 0 <= j <= |ops| ==> Balance(s.refs[p], ops[..j], p) >= 0
    ensures AllowedRun(s, ops) && p in Result(s, ops).refs
    ensures p !in Result(s, ops + [Free(p)]).refs <==> Balance(s.refs[p], ops, p) == 0
    ensures Balance(s.refs[p], ops, p) == 0 ==> Result(s, ops + [Free(p)]).free == [p] + Result(s, ops).free
  {
    assert (ops + [Free(p)])[..|ops|] == ops;
    InUseWhileReferenced(s, ops, p);
  }

  /** The pool is a stack: the packet freed last is the one handed out next, and that undoes the free. */
  lemma {:induction false} FreeThenAlloc(s: Pool, p: Packet, q: Packet)
    requires PoolOK(s) && p in s.refs && s.refs[p] == 0
    ensures var s' := After(s, Free(p));
            && p !in s'.refs && (Allowed(s', Alloc(q)) <==> q == p)
            && After(s', Alloc(p)) == s
  {
    assert s.refs - {p} == map x | x in s.refs && x != p :: s.refs[x];
    assert (s.refs - {p})[p := 0] == s.refs;
  }

  /** A new packet is made only when the pool is empty; one from the pool goes back to where it was. */
  lemma {:induction false} AllocThenFree(s: Pool, p: Packet)
    requires PoolOK(s) && Allowed(s, Alloc(p))
    ensures p !in s.free <==> s.free == []
    ensures After(After(s, Alloc(p)), Free(p)) == if s.free != [] then s else Pool([p], s.refs)
  {
    assert s.refs[p := 0] - {p} == s.refs;
  }

  // ---------------------------------------------------------------- the heap

  function Following(l: seq<Packet>, i: nat): Packet? { if i + 1 < |l| then l[i + 1] else null }

  class PacketPool {
    const hdrlen: nat
    var free_: Packet?
    ghost var packets: set<Packet>
    ghost var freeList: seq<Packet>

    /** The chain of next pointers from the head is exactly the free list. */
    ghost predicate Chained()
      reads this, freeList
    {
      && free_ == (if freeList == [] then null else freeList[0])
      && forall i :: 0 <= i < |freeList| ==> freeList[i].next == Following(freeList, i)
    }

    ghost predicate Valid()
      reads this, packets, freeList
    {
      && hdrlen > DIRECTION
      && Chained()
      && (forall p :: p in freeList ==> p in packets && !p.fflag && p.data == None && p.refCount == 0)
      && (forall i, j :: 0 <= i < j < |freeList| ==> freeList[i] != freeList[j])
      && (forall p :: p in packets && p !in freeList ==> p.fflag && p.refCount >= 0)
      && (forall p :: p in packets ==> p.bits.Length == hdrlen)
      && (forall p, q :: p in packets && q in packets && p != q ==> p.bits != q.bits)
    }

    /** The packets handed out and not yet back. */
    ghost function InUse(): set<Packet>
      reads this
    {
      set p | p in packets && p !in freeList
    }

    /** What alloc may change: the first packet of the pool and its header. */
    ghost function Head(): set<Packet>
      reads this
    {
      if free_ == null then {} else {free_}
    }

    ghost function HeadBits(): set<array<int>>
      reads this
    {
      if free_ == null then {} else {free_.bits}
    }

    ghost function View(): Pool
      reads this, packets, freeList
      requires Valid()
    {
      Pool(freeList, map p | p in InUse() :: p.refCount)
    }

    constructor (hdrlen: nat)
      requires hdrlen > DIRECTION
      ensures Valid() && this.hdrlen == hdrlen && packets == {} && freeList == []
    {
      this.hdrlen := hdrlen;
      free_, packets, freeList := null, {}, [];
    }

    /** `init`: the header is zeroed. */
    method Init(p: Packet)
      modifies p.bits
      ensures forall i :: 0 <= i < p.bits.Length ==> p.bits[i] == 0
    {
      forall i | 0 <= i < p.bits.Length { p.bits[i] := 0; }
    }

    /** The part of alloc that makes a packet fit for use. */
    method Prepare(p: Packet)
      requires p.bits.Length == hdrlen > DIRECTION
      modifies p`fflag, p`next, p.bits
      ensures p.bits[..] == FreshHeader(hdrlen) && p.fflag && p.next == null
    {
      Init(p);
      p.bits[NEXT_HOP] := -2;
      p.bits[LAST_HOP] := -2;
      p.fflag := true;
      p.bits[DIRECTION] := DOWN;
      p.next := null;
    }

    /** The branch of alloc for a pool that is not empty. */
    method TakeFirst() returns (p: Packet)
      requires Valid() && free_ != null
      modifies this`free_, this`freeList, free_, free_.bits
      ensures Valid() && old(freeList) != [] && p == old(freeList)[0] && freeList == old(freeList)[1..]
      ensures InUse() == old(InUse()) + {p}
      ensures p.bits[..] == FreshHeader(hdrlen) && p.data == None && p.refCount == 0 && p.next == null
      ensures p.uid == 0 && p.time == 0.0
    {
      p := free_;
      assert p == freeList[0];
      assert !p.fflag;
      free_ := p.next;
      assert p.data == None;
      p.uid := 0;
      p.time := 0.0;
      freeList := freeList[1..];
      Prepare(p);
      forall i | 0 <= i < |freeList| ensures freeList[i].next == Following(freeList, i) {
        assert freeList[i] == old(freeList)[i + 1];
        assert old(freeList[i + 1].next) == Following(old(freeList), i + 1);
      }
    }

    /** The branch of alloc for an empty pool. */
    method TakeNew() returns (p: Packet)
      requires Valid() && free_ == null
      modifies this`packets
      ensures Valid() && fresh(p) && fresh(p.bits) && freeList == old(freeList) == []
      ensures InUse() == old(InUse()) + {p}
      ensures p.bits[..] == FreshHeader(hdrlen) && p.data == None && p.refCount == 0 && p.next == null
      ensures p.uid == 0 && p.time == 0.0
    {
      p := new Packet(hdrlen);
      packets := packets + {p};
      Prepare(p);
    }

    lemma {:induction false} ViewIs(s: Pool)
      requires Valid() && s.free == freeList && s.refs.Keys == InUse()
      requires forall q :: q in InUse() ==> s.refs[q] == q.refCount
      ensures View() == s
    {
    }

    lemma {:induction false} FreshHeaderWords(h: seq<int>)
      requires hdrlen > DIRECTION && h == FreshHeader(hdrlen)
      ensures |h| == hdrlen && h[0] == -2 && h[1] == -2 && h[2] == -1 && forall i :: 3 <= i < |h| ==> h[i] == 0
    {
    }

    /** A packet never in use before, or the first of the pool; its header cannot tell which: the words of the two hops
        are -2, that of the direction is -1, and the rest are zero. */
    method Alloc() returns (p: Packet)
      requires Valid()
      modifies this`free_, this`freeList, this`packets, Head(), HeadBits()
      ensures Valid() && (fresh(p) || p == old(free_)) && p !in old(InUse())
      ensures p.bits[..] == FreshHeader(hdrlen) && p.data == None && p.refCount == 0 && p.next == null
      ensures p.bits.Length >= 3 && p.bits[0] == -2 && p.bits[1] == -2 && p.bits[2] == -1
      ensures forall i :: 3 <= i < p.bits.Length ==> p.bits[i] == 0
      ensures p.uid == 0 && p.time == 0.0 && (fresh(p) ==> fresh(p.bits))
      ensures InUse() == old(InUse()) + {p}
      ensures Allowed(old(View()), Op.Alloc(p)) && View() == After(old(View()), Op.Alloc(p))
    {
      ghost var was := View();
      if free_ != null { p := TakeFirst(); } else { p := TakeNew(); }
      hide Chained, FreshHeader;
      FreshHeaderWords(p.bits[..]);
      ViewIs(After(was, Op.Alloc(p)));
    }

    /** The part of free that puts a packet back at the head of the free list. */
    method PutBack(p: Packet)
      requires Valid() && p in InUse() && p.refCount == 0
      modifies this`free_, this`freeList, p, p.bits
      ensures Valid() && freeList == [p] + old(freeList) && InUse() == old(InUse()) - {p}
      ensures p.data == None && !p.fflag && forall i :: 0 <= i < p.bits.Length ==> p.bits[i] == 0
    {
      if p.data != None { p.data := None; }
      Init(p);
      p.next := free_;
      free_ := p;
      p.fflag := false;
      freeList := [p] + freeList;
      forall i | 0 <= i < |freeList| ensures freeList[i].next == Following(freeList, i) {
        if i > 0 { assert old(freeList[i - 1].next) == Following(old(freeList), i - 1); }
      }
    }

    /** A free of a packet with references takes one away; without, it goes to the pool; in the pool, nothing
        happens. */
    method Free(p: Packet)
      requires Valid() && p in packets
      requires p.fflag && p.refCount == 0 ==> p.uid <= 0
      modifies this`free_, this`freeList, p, p.bits
      ensures Valid() && packets == old(packets)
      ensures p !in old(InUse()) ==> unchanged(this) && unchanged(p) && unchanged(p.bits)
      ensures p in old(InUse()) && old(p.refCount) > 0 ==> p.data == old(p.data) && unchanged(p.bits)
      ensures p in old(InUse()) && old(p.refCount) == 0 ==>
                p.data == None && !p.fflag && forall i :: 0 <= i < p.bits.Length ==> p.bits[i] == 0
      ensures View() == After(old(View()), Op.Free(p))
    {
      ghost var was := View();
      if p.fflag {
        if p.refCount == 0 {
          PutBack(p);
        } else {
          p.refCount := p.refCount - 1;
        }
      }
      hide Chained;
      ViewIs(After(was, Op.Free(p)));
    }

    method RefCopy(p: Packet) returns (q: Packet)
      requires Valid() && p in InUse()
      modifies p`refCount
      ensures Valid() && q == p
      ensures View() == After(old(View()), Op.RefCopy(p))
    {
      ghost var was := View();
      p.refCount := p.refCount + 1;
      q := p;
      hide Chained;
      ViewIs(After(was, Op.RefCopy(p)));
    }

    method SetData(p: Packet, d: Option<seq<int>>)
      requires Valid() && p in InUse()
      modifies p`data
      ensures Valid() && p.data == d && View() == old(View())
    {
      if p.data != None { p.data := None; }
      p.data := d;
    }

    /** Attaches a buffer; its contents are whatever `contents` holds. */
    method AllocData(p: Packet, contents: seq<int>)
      requires Valid() && p in InUse() && p.data == None
      modifies p`data
      ensures Valid() && p.data == Some(contents) && View() == old(View())
    {
      p.data := Some(contents);
    }

    method CopyBits(p: Packet, q: Packet)
      requires p.bits.Length == q.bits.Length && p.bits != q.bits
      modifies q.bits
      ensures q.bits[..] == p.bits[..]
    {
      forall i | 0 <= i < q.bits.Length { q.bits[i] := p.bits[i]; }
    }

    /** A copy is another packet with the same header and data and no references. */
    method Copy(p: Packet) returns (q: Packet)
      requires Valid() && p in InUse()
      modifies this`free_, this`freeList, this`packets, Head(), HeadBits()
      ensures Valid() && q !in old(InUse()) && InUse() == old(InUse()) + {q}
      ensures q.bits[..] == old(p.bits[..]) && q.data == p.data && q.refCount == 0
      ensures unchanged(p) && unchanged(p.bits)
      ensures Allowed(old(View()), Op.Alloc(q)) && View() == After(old(View()), Op.Alloc(q))
    {
      q := Alloc();
      hide Valid, After, Allowed;
      CopyBits(p, q);
      if p.data != None { SetData(q, p.data); }
    }
  }
}
