/**
  Request identifiers of the FUSE connection (dev.c).

  An identifier is an unsigned 64-bit number. Its low 18 bits are the slot of the
  request in `request_map`, the bits above count how often the slot was reused.
  Free identifiers live on one global stack and on one small stack per CPU.
 */
module FuseIds {

  const PXD_MAX_QDEPTH: nat := 256
  const PXD_MAX_DEVICES: nat := 512
  const MAX_IDS: nat := 2 * PXD_MAX_QDEPTH * PXD_MAX_DEVICES
  const MAX_PER_CPU: nat := 256
  const HALF: nat := MAX_PER_CPU / 2
  const WORD: nat := 0x1_0000_0000_0000_0000
  /** Number of generations a slot has: WORD / MAX_IDS. */
  const GENERATIONS: nat := 0x4000_0000_0000

  type Id = u: int | 0 <= u < WORD

  function Slot(id: Id): (slot: nat)
    ensures slot < MAX_IDS
  {
    id % MAX_IDS
  }

  /** What `fuse_get_unique` does to the number it pops: add MAX_IDS modulo 2^64, and once more if that is zero. */
  function NextId(id: Id): (next: Id)
    ensures next != 0
    ensures Slot(next) == Slot(id)
  {
    var u := (id + MAX_IDS) % WORD;
    if u == 0 then MAX_IDS else u
  }

  // ------------------------------------------------------------------------
  // Closed form of the identifiers a slot goes through
  // ------------------------------------------------------------------------

  /** How many issues it takes before a slot hands out the same identifier again. */
  function Period(slot: nat): (p: nat)
    ensures p > 0
  {
    if slot == 0 then GENERATIONS - 1 else GENERATIONS
  }

  /** The identifier that slot `slot` hands out at its `k`-th issue; issue 0 is the initial stack content. */
  function IdAt(slot: nat, k: nat): (id: Id)
    requires slot < MAX_IDS
    ensures Slot(id) == slot
    ensures k > 0 ==> id != 0
  {
    var g := if slot != 0 then k % GENERATIONS else if k == 0 then 0 else (k - 1) % (GENERATIONS - 1) + 1;
    IdBounds(slot, g);
    slot + g * MAX_IDS
  }

  lemma IdBounds(slot: nat, g: nat)
    requires slot < MAX_IDS && g < GENERATIONS
    ensures slot + g * MAX_IDS < WORD
    ensures (slot + g * MAX_IDS) % MAX_IDS == slot
    ensures g > 0 ==> slot + g * MAX_IDS > 0
  {
  }

  /** The closed form really is the orbit of NextId. */
  lemma NextIdOrbit(slot: nat, k: nat)
    requires slot < MAX_IDS
    ensures NextId(IdAt(slot, k)) == IdAt(slot, k + 1)
  {
    if slot != 0 {
      var g := k % GENERATIONS;
      SuccessorResidue(k, GENERATIONS);
      WrapAdd(slot, g);
    } else if k > 0 {
      var g := (k - 1) % (GENERATIONS - 1);
      SuccessorResidue(k - 1, GENERATIONS - 1);
      WrapAdd(0, g + 1);
    }
  }

  lemma WrapAdd(slot: nat, g: nat)
    requires slot < MAX_IDS && g < GENERATIONS
    ensures (slot + g * MAX_IDS + MAX_IDS) % WORD == if g + 1 == GENERATIONS then slot else slot + (g + 1) * MAX_IDS
  {
  }

  /** Two issues carry the same identifier exactly when they are of one slot, a whole number of periods apart. */
  lemma IdsRepeatExactly(slot: nat, k: nat, slot': nat, k': nat)
    requires slot < MAX_IDS && slot' < MAX_IDS && k > 0 && k' > 0
    ensures IdAt(slot, k) == IdAt(slot', k') <==> slot == slot' && k % Period(slot) == k' % Period(slot)
  {
    assert Slot(IdAt(slot, k)) == slot && Slot(IdAt(slot', k')) == slot';
    if slot == slot' == 0 {
      var p := GENERATIONS - 1;
      assert (k - 1) % p == (k' - 1) % p <==> k % p == k' % p by {
        ShiftedResidues(k - 1, k' - 1, p);
      }
    }
  }

  lemma ShiftedResidues(a: nat, b: nat, p: nat)
    requires p > 0
    ensures a % p == b % p <==> (a + 1) % p == (b + 1) % p
  {
    SuccessorResidue(a, p);
    SuccessorResidue(b, p);
  }

  lemma SuccessorResidue(a: nat, p: nat)
    requires p > 0
    ensures (a + 1) % p == if a % p + 1 == p then 0 else a % p + 1
  {
    var q, r := a / p, a % p;
    assert a + 1 == q * p + (r + 1);
    if r + 1 == p {
      assert a + 1 == (q + 1) * p + 0;
      Residue(a + 1, p, q + 1, 0);
    } else {
      Residue(a + 1, p, q, r + 1);
    }
  }

  lemma Residue(x: nat, p: nat, q: nat, r: nat)
    requires p > 0 && r < p && x == q * p + r
    ensures x % p == r
  {
    var d := x / p - q;
    assert x == (x / p) * p + x % p;
    assert d * p == r - x % p;
    assert (x / p - q) * p == d * p;
    assert d >= 1 ==> d * p >= p;
    assert d <= -1 ==> d * p <= 0 - p;
  }

  /** The mask of the source, `uid & (MAX_IDS - 1)`, is the remainder used here because MAX_IDS is a power of two. */
  lemma MaskIsRemainder(x: bv64)
    ensures x & 0x3FFFF == x % 0x40000
  {
  }

  // ------------------------------------------------------------------------
  // The stacks
  // ------------------------------------------------------------------------

  datatype Pool = Pool(free: seq<Id>, cpus: seq<seq<Id>>)

  predicate Available(p: Pool, cpu: nat) {
    cpu < |p.cpus| && (p.cpus[cpu] != [] || p.free != [])
  }

  /** A CPU whose stack ran dry takes the top half-stack (or what is left) of the global stack. */
  function Refill(p: Pool, cpu: nat): (q: Pool)
    requires cpu < |p.cpus|
  {
    var n := if |p.free| < HALF then |p.free| else HALF;
    Pool(p.free[..|p.free| - n], p.cpus[cpu := p.free[|p.free| - n..]])
  }

  /** fuse_get_unique, the stack part. */
  function Take(p: Pool, cpu: nat): (r: (Pool, Id))
    requires Available(p, cpu)
  {
    var q := if p.cpus[cpu] == [] then Refill(p, cpu) else p;
    var s := q.cpus[cpu];
    (q.(cpus := q.cpus[cpu := s[..|s| - 1]]), s[|s| - 1])
  }

  /** A full CPU stack gives its upper half to the global stack. */
  function Spill(p: Pool, cpu: nat): (q: Pool)
    requires cpu < |p.cpus| && |p.cpus[cpu]| >= HALF
  {
    var s := p.cpus[cpu];
    Pool(p.free + s[|s| - HALF..], p.cpus[cpu := s[..|s| - HALF]])
  }

  /** fuse_put_unique, the stack part. */
  function Give(p: Pool, cpu: nat, id: Id): (q: Pool)
    requires cpu < |p.cpus|
  {
    var q := if |p.cpus[cpu]| == MAX_PER_CPU then Spill(p, cpu) else p;
    q.(cpus := q.cpus[cpu := q.cpus[cpu] + [id]])
  }

  // ------------------------------------------------------------------------
  // Which slots are on the stacks
  // ------------------------------------------------------------------------

  /** How often slot `x` occurs on a stack. */
  function Count(ids: seq<Id>, x: nat): nat {
    if ids == [] then 0
    else Count(ids[..|ids| - 1], x) + if Slot(ids[|ids| - 1]) == x then 1 else 0
  }

  function CountAll(stacks: seq<seq<Id>>, x: nat): nat {
    if stacks == [] then 0 else Count(stacks[0], x) + CountAll(stacks[1..], x)
  }

  function PoolCount(p: Pool, x: nat): nat {
    Count(p.free, x) + CountAll(p.cpus, x)
  }

  function SumLen(stacks: seq<seq<Id>>): nat {
    if stacks == [] then 0 else |stacks[0]| + SumLen(stacks[1..])
  }

  function PoolSize(p: Pool): nat {
    |p.free| + SumLen(p.cpus)
  }

  ghost predicate Bounded(p: Pool) {
    forall c :: 0 <= c < |p.cpus| ==> |p.cpus[c]| <= MAX_PER_CPU
  }

  lemma {:induction false} CountConcat(a: seq<Id>, b: seq<Id>, x: nat)
    ensures Count(a + b, x) == Count(a, x) + Count(b, x)
  {
    if b == [] {
      assert a + b == a;
    } else {
      var t := b[..|b| - 1];
      assert (a + b)[..|a + b| - 1] == a + t;
      CountConcat(a, t, x);
    }
  }

  lemma {:induction false} CountMember(ids: seq<Id>, i: nat)
    requires i < |ids|
    ensures Count(ids, Slot(ids[i])) >= 1
  {
    if i < |ids| - 1 {
      CountMember(ids[..|ids| - 1], i);
    }
  }

  lemma {:induction false} CountAllUpdate(stacks: seq<seq<Id>>, c: nat, s: seq<Id>, x: nat)
    requires c < |stacks|
    ensures CountAll(stacks[c := s], x) + Count(stacks[c], x) == CountAll(stacks, x) + Count(s, x)
    ensures SumLen(stacks[c := s]) + |stacks[c]| == SumLen(stacks) + |s|
  {
    if c == 0 {
      assert stacks[0 := s][1..] == stacks[1..];
    } else {
      assert stacks[c := s][1..] == stacks[1..][c - 1 := s];
      CountAllUpdate(stacks[1..], c - 1, s, x);
    }
  }

  lemma {:induction false} CountAllMember(stacks: seq<seq<Id>>, c: nat, i: nat)
    requires c < |stacks| && i < |stacks[c]|
    ensures CountAll(stacks, Slot(stacks[c][i])) >= 1
  {
    if c == 0 {
      CountMember(stacks[0], i);
    } else {
      CountAllMember(stacks[1..], c - 1, i);
    }
  }

  /** The per-CPU stacks together: the given one counted exactly, each other one at most 256. */
  lemma {:induction false} SumLenBounds(stacks: seq<seq<Id>>, c: nat)
    requires c < |stacks|
    requires forall d :: 0 <= d < |stacks| ==> |stacks[d]| <= MAX_PER_CPU
    ensures |stacks[c]| <= SumLen(stacks) <= |stacks[c]| + MAX_PER_CPU * (|stacks| - 1)
  {
    var rest := stacks[1..];
    if c > 0 {
      SumLenBounds(rest, c - 1);
    } else if rest != [] {
      SumLenBounds(rest, 0);
    }
  }

  // ------------------------------------------------------------------------
  // What taking and giving back do to the slots
  // ------------------------------------------------------------------------

  lemma RefillKeeps(p: Pool, cpu: nat, x: nat)
    requires cpu < |p.cpus| && p.cpus[cpu] == []
    ensures PoolCount(Refill(p, cpu), x) == PoolCount(p, x)
    ensures PoolSize(Refill(p, cpu)) == PoolSize(p)
  {
    var q := Refill(p, cpu);
    var s := q.cpus[cpu];
    assert p.free == q.free + s;
    CountConcat(q.free, s, x);
    CountAllUpdate(p.cpus, cpu, s, x);
  }

  lemma SpillKeeps(p: Pool, cpu: nat, x: nat)
    requires cpu < |p.cpus| && |p.cpus[cpu]| >= HALF
    ensures PoolCount(Spill(p, cpu), x) == PoolCount(p, x)
    ensures PoolSize(Spill(p, cpu)) == PoolSize(p)
  {
    var s := p.cpus[cpu];
    var lo, hi := s[..|s| - HALF], s[|s| - HALF..];
    assert s == lo + hi;
    CountConcat(lo, hi, x);
    CountConcat(p.free, hi, x);
    CountAllUpdate(p.cpus, cpu, lo, x);
  }

  /** Taking an identifier removes its slot, once, and no other. */
  lemma TakeRemoves(p: Pool, cpu: nat, x: nat)
    requires Available(p, cpu)
    ensures var (q, id) := Take(p, cpu);
            PoolCount(p, x) == PoolCount(q, x) + (if x == Slot(id) then 1 else 0)
    ensures PoolSize(p) == PoolSize(Take(p, cpu).0) + 1
    ensures Bounded(p) ==> Bounded(Take(p, cpu).0)
    ensures |Take(p, cpu).0.cpus| == |p.cpus|
  {
    var m := if p.cpus[cpu] == [] then Refill(p, cpu) else p;
    if p.cpus[cpu] == [] {
      RefillKeeps(p, cpu, x);
    }
    var s := m.cpus[cpu];
    CountAllUpdate(m.cpus, cpu, s[..|s| - 1], x);
  }

  /** A push without a spill. */
  lemma PushAdds(m: Pool, cpu: nat, id: Id, x: nat)
    requires cpu < |m.cpus|
    ensures var q := m.(cpus := m.cpus[cpu := m.cpus[cpu] + [id]]);
            && PoolCount(q, x) == PoolCount(m, x) + (if x == Slot(id) then 1 else 0)
            && PoolSize(q) == PoolSize(m) + 1
  {
    var s := m.cpus[cpu];
    assert (s + [id])[..|s|] == s;
    CountAllUpdate(m.cpus, cpu, s + [id], x);
  }

  /** Giving an identifier back adds its slot, once, and no other. */
  lemma GiveAdds(p: Pool, cpu: nat, id: Id, x: nat)
    requires cpu < |p.cpus|
    ensures PoolCount(Give(p, cpu, id), x) == PoolCount(p, x) + (if x == Slot(id) then 1 else 0)
    ensures PoolSize(Give(p, cpu, id)) == PoolSize(p) + 1
    ensures Bounded(p) ==> Bounded(Give(p, cpu, id))
    ensures |Give(p, cpu, id).cpus| == |p.cpus|
  {
    var m := if |p.cpus[cpu]| == MAX_PER_CPU then Spill(p, cpu) else p;
    if |p.cpus[cpu]| == MAX_PER_CPU {
      SpillKeeps(p, cpu, x);
    }
    PushAdds(m, cpu, id, x);
  }

  // ------------------------------------------------------------------------
  // Properties of every identifier on the stacks
  // ------------------------------------------------------------------------

  ghost predicate EachId(p: Pool, ok: Id -> bool) {
    && (forall i :: 0 <= i < |p.free| ==> ok(p.free[i]))
    && (forall c, i :: 0 <= c < |p.cpus| && 0 <= i < |p.cpus[c]| ==> ok(p.cpus[c][i]))
  }

  lemma TakeEach(p: Pool, cpu: nat, ok: Id -> bool)
    requires Available(p, cpu) && EachId(p, ok)
    ensures EachId(Take(p, cpu).0, ok) && ok(Take(p, cpu).1)
  {
    var m := if p.cpus[cpu] == [] then Refill(p, cpu) else p;
    assert EachId(m, ok);
  }

  lemma GiveEach(p: Pool, cpu: nat, id: Id, ok: Id -> bool)
    requires cpu < |p.cpus| && EachId(p, ok) && ok(id)
    ensures EachId(Give(p, cpu, id), ok)
  {
    var m := if |p.cpus[cpu]| == MAX_PER_CPU then Spill(p, cpu) else p;
    assert EachId(m, ok);
  }

  /** The property may be changed as long as it stays the same on the slots that are in the pool. */
  lemma EachChange(p: Pool, ok: Id -> bool, ok': Id -> bool)
    requires EachId(p, ok)
    requires forall id :: ok(id) && PoolCount(p, Slot(id)) >= 1 ==> ok'(id)
    ensures EachId(p, ok')
  {
    forall i | 0 <= i < |p.free| ensures ok'(p.free[i]) {
      CountMember(p.free, i);
    }
    forall c, i | 0 <= c < |p.cpus| && 0 <= i < |p.cpus[c]| ensures ok'(p.cpus[c][i]) {
      CountAllMember(p.cpus, c, i);
    }
  }

  // ------------------------------------------------------------------------
  // How rarely a CPU needs the global stack
  // ------------------------------------------------------------------------

  /** An id just given back is the next one taken on that CPU, and giving it back cost at most a spill. */
  lemma TakeUndoesGive(p: Pool, cpu: nat, id: Id)
    requires cpu < |p.cpus|
    ensures Take(Give(p, cpu, id), cpu).1 == id
    ensures Take(Give(p, cpu, id), cpu).0 == if |p.cpus[cpu]| == MAX_PER_CPU then Spill(p, cpu) else p
  {
    var q := if |p.cpus[cpu]| == MAX_PER_CPU then Spill(p, cpu) else p;
    assert (q.cpus[cpu] + [id])[..|q.cpus[cpu]|] == q.cpus[cpu];
    assert q.cpus[cpu := q.cpus[cpu] + [id]][cpu := q.cpus[cpu]] == q.cpus;
  }

  /** How often `n` gets in a row on one CPU have to go to the global stack. */
  function Refills(p: Pool, cpu: nat, n: nat): nat
    requires cpu < |p.cpus| && n <= |p.cpus[cpu]| + |p.free|
    decreases n
  {
    if n == 0 then 0
    else (if p.cpus[cpu] == [] then 1 else 0) + Refills(Take(p, cpu).0, cpu, n - 1)
  }

  /** `times` batches of 128 are just enough for `beyond` ids. */
  predicate Rounds(times: int, beyond: int) {
    if beyond <= 0 then times == 0 else HALF * (times - 1) < beyond <= HALF * times
  }

  lemma RoundsNext(own: nat, all: nat, n: nat, own': nat, times: nat)
    requires 0 < n <= own + all && own' == (if own > 0 then own - 1 else Least(all) - 1) && Rounds(times, n - 1 - own')
    ensures Rounds(times + if own == 0 then 1 else 0, n - own)
  {
  }

  lemma TakeLengths(p: Pool, cpu: nat)
    requires Available(p, cpu)
    ensures var q, own, all := Take(p, cpu).0, |p.cpus[cpu]|, |p.free|;
            && cpu < |q.cpus|
            && (own > 0 ==> |q.cpus[cpu]| == own - 1 && |q.free| == all)
            && (own == 0 ==> |q.cpus[cpu]| == Least(all) - 1 && |q.free| == all - Least(all))
  {
  }

  function Least(all: nat): nat {
    if all < HALF then all else HALF
  }

  /** Once for every 128 ids beyond those on the CPU's own stack. */
  lemma {:induction false} RefillsExactly(p: Pool, cpu: nat, n: nat)
    requires cpu < |p.cpus| && n <= |p.cpus[cpu]| + |p.free|
    ensures var times, beyond := Refills(p, cpu, n), n - |p.cpus[cpu]|;
            Rounds(times, beyond)
    decreases n
  {
    if n > 0 {
      TakeLengths(p, cpu);
      var q := Take(p, cpu).0;
      RefillsExactly(q, cpu, n - 1);
      RoundsNext(|p.cpus[cpu]|, |p.free|, n, |q.cpus[cpu]|, Refills(q, cpu, n - 1));
    }
  }

  /** How often giving back these ids on one CPU has to go to the global stack. */
  function Spills(p: Pool, cpu: nat, ids: seq<Id>): nat
    requires cpu < |p.cpus|
    decreases |ids|
  {
    if ids == [] then 0
    else (if |p.cpus[cpu]| == MAX_PER_CPU then 1 else 0) + Spills(Give(p, cpu, ids[0]), cpu, ids[1..])
  }

  /** Once for every 128 ids beyond those the CPU's own stack has room for. */
  lemma {:induction false} SpillsExactly(p: Pool, cpu: nat, ids: seq<Id>)
    requires cpu < |p.cpus| && |p.cpus[cpu]| <= MAX_PER_CPU
    ensures var times, beyond := Spills(p, cpu, ids), |p.cpus[cpu]| + |ids| - MAX_PER_CPU;
            Rounds(times, beyond)
    decreases |ids|
  {
    if ids != [] {
      SpillsExactly(Give(p, cpu, ids[0]), cpu, ids[1..]);
    }
  }
}
