/** Snowflake ids: 41 bits of time, 5 of datacenter, 5 of worker, 12 of sequence. */
module SnowflakeIds {

  const MAX_WORKER_ID := 31
  const MAX_DATACENTER_ID := 31
  const SEQUENCE_MASK := 4095
  const TIME_LIMIT := 0x200_0000_0000  // 41 bits

  // ----- bits of natural numbers

  function Pow2(n: nat): (r: nat)
    ensures r > 0
  {
    if n == 0 then 1 else 2 * Pow2(n - 1)
  }

  function ShiftLeft(x: nat, n: nat): nat {
    x * Pow2(n)
  }

  function Or(x: nat, y: nat): nat {
    if x == 0 then y else if y == 0 then x
    else (if x % 2 == 1 || y % 2 == 1 then 1 else 0) + 2 * Or(x / 2, y / 2)
  }

  function And(x: nat, y: nat): nat {
    if x == 0 || y == 0 then 0 else (if x % 2 == 1 && y % 2 == 1 then 1 else 0) + 2 * And(x / 2, y / 2)
  }

  lemma ShiftOnce(x: nat, n: nat)
    requires n > 0
    ensures ShiftLeft(x, n) == 2 * ShiftLeft(x, n - 1)
  {
    assert x * (2 * Pow2(n - 1)) == 2 * (x * Pow2(n - 1));
  }

  /** Or-ing bits below a shifted number adds them. */
  lemma {:induction false} OrBelow(x: nat, y: nat, n: nat)
    requires y < Pow2(n)
    ensures Or(ShiftLeft(x, n), y) == ShiftLeft(x, n) + y
  {
    if n > 0 {
      ShiftOnce(x, n);
      OrBelow(x, y / 2, n - 1);
    }
  }

  /** Masking with a number below a power of two that is all ones changes nothing below it. */
  lemma {:induction false} MaskBelow(x: nat, n: nat)
    requires x < Pow2(n)
    ensures And(x, Pow2(n) - 1) == x
  {
    if n > 0 {
      MaskBelow(x / 2, n - 1);
    }
  }

  /** Masking a power of two with the ones below it leaves nothing. */
  lemma {:induction false} MaskPower(n: nat)
    ensures And(Pow2(n), Pow2(n) - 1) == 0
  {
    if n > 0 {
      MaskPower(n - 1);
    }
  }

  lemma Powers()
    ensures Pow2(12) == 0x1000 && Pow2(17) == 0x2_0000 && Pow2(22) == 0x40_0000
  {
    assert Pow2(4) == 16 && Pow2(8) == 256 && Pow2(12) == 0x1000;
    assert Pow2(16) == 0x1_0000 && Pow2(17) == 0x2_0000;
    assert Pow2(20) == 0x10_0000 && Pow2(22) == 0x40_0000;
  }

  // ----- packing

  predicate Fields(time: int, datacenter: int, worker: int, sequence: int) {
    && 0 <= time < TIME_LIMIT && 0 <= datacenter <= MAX_DATACENTER_ID && 0 <= worker <= MAX_WORKER_ID
    && 0 <= sequence <= SEQUENCE_MASK
  }

  /** The id of a time relative to the epoch: shifted fields, or-ed together. */
  function Pack(time: nat, datacenter: nat, worker: nat, sequence: nat): nat {
    Or(Or(Or(ShiftLeft(time, 22), ShiftLeft(datacenter, 17)), ShiftLeft(worker, 12)), sequence)
  }

  /** The fields share no bit, so or-ing adds them, and the id is a positive 64-bit number. */
  lemma PackIsSum(time: int, datacenter: int, worker: int, sequence: int)
    requires Fields(time, datacenter, worker, sequence)
    ensures Pack(time, datacenter, worker, sequence) ==
            time * 0x40_0000 + datacenter * 0x2_0000 + worker * 0x1000 + sequence
    ensures Pack(time, datacenter, worker, sequence) < 0x8000_0000_0000_0000
  {
    var high := time * 32 + datacenter;
    Powers();
    assert Or(ShiftLeft(time, 22), ShiftLeft(datacenter, 17)) == ShiftLeft(high, 17) by {
      OrBelow(time, ShiftLeft(datacenter, 17), 22);
    }
    assert Or(ShiftLeft(high, 17), ShiftLeft(worker, 12)) == ShiftLeft(high * 32 + worker, 12) by {
      OrBelow(high, ShiftLeft(worker, 12), 17);
    }
    OrBelow(high * 32 + worker, sequence, 12);
  }

  /** Shifting back and masking, as division and remainder, give the fields back. */
  lemma PackDecodes(time: int, datacenter: int, worker: int, sequence: int)
    requires Fields(time, datacenter, worker, sequence)
    ensures var id := Pack(time, datacenter, worker, sequence);
      && id / 0x40_0000 == time && id / 0x2_0000 % 32 == datacenter
      && id / 0x1000 % 32 == worker && id % 0x1000 == sequence
  {
    PackIsSum(time, datacenter, worker, sequence);
    var high := time * 32 + datacenter;
    Divide(time, datacenter * 0x2_0000 + worker * 0x1000 + sequence, 0x40_0000);
    Divide(high, worker * 0x1000 + sequence, 0x2_0000);
    Divide(high * 32 + worker, sequence, 0x1000);
    Divide(time, datacenter, 32);
    Divide(high, worker, 32);
  }

  lemma Divide(q: nat, r: nat, m: nat)
    requires r < m
    ensures (q * m + r) / m == q && (q * m + r) % m == r
  {
    var x, d := q * m + r, (q * m + r) / m - q;
    assert d * m == r - x % m;
    assert d >= 1 ==> d * m >= m;
    assert d <= -1 ==> d * m <= 0 - m;
  }

  /** Equal ids have equal fields. */
  lemma PackInjective(t1: int, d1: int, w1: int, s1: int, t2: int, d2: int, w2: int, s2: int)
    requires Fields(t1, d1, w1, s1) && Fields(t2, d2, w2, s2) && Pack(t1, d1, w1, s1) == Pack(t2, d2, w2, s2)
    ensures t1 == t2 && d1 == d2 && w1 == w2 && s1 == s2
  {
    PackDecodes(t1, d1, w1, s1);
    PackDecodes(t2, d2, w2, s2);
  }

  /** The masked increment of a sequence number wraps from 4095 to 0. */
  function NextSequence(sequence: nat): (r: nat)
    requires sequence <= SEQUENCE_MASK
    ensures r == if sequence == SEQUENCE_MASK then 0 else sequence + 1
  {
    Powers();
    if sequence == SEQUENCE_MASK then MaskPower(12); And(sequence + 1, SEQUENCE_MASK)
    else MaskBelow(sequence + 1, 12); And(sequence + 1, SEQUENCE_MASK)
  }

  // ----- runs

  /** What one call put into its id. */
  datatype Stamp = Stamp(time: int, datacenter: int, worker: int, sequence: int)

  predicate Legal(s: Stamp) {
    Fields(s.time, s.datacenter, s.worker, s.sequence)
  }

  function IdOf(s: Stamp): nat
    requires Legal(s)
  {
    Pack(s.time, s.datacenter, s.worker, s.sequence)
  }

  predicate Later(a: Stamp, b: Stamp) {
    a.time < b.time || (a.time == b.time && a.sequence < b.sequence)
  }

  /** Stamps issued one after the other. */
  ghost predicate Issued(stamps: seq<Stamp>) {
    && (forall i | 0 <= i < |stamps| :: Legal(stamps[i]))
    && (forall i | 0 <= i < |stamps| - 1 :: Later(stamps[i], stamps[i + 1]))
  }

  lemma IssuedNext(stamps: seq<Stamp>, s: Stamp)
    requires Issued(stamps) && Legal(s) && (stamps != [] ==> Later(stamps[|stamps| - 1], s))
    ensures Issued(stamps + [s])
  {
  }

  lemma {:induction false} LaterAcross(stamps: seq<Stamp>, i: nat, j: nat)
    requires Issued(stamps) && i < j < |stamps|
    ensures Later(stamps[i], stamps[j])
  {
    if i < j - 1 {
      LaterAcross(stamps, i, j - 1);
      assert Later(stamps[j - 1], stamps[j - 1 + 1]);
    }
  }

  /** All ids of a run are distinct, however the worker and datacenter were set in between. */
  lemma IdsDistinct(stamps: seq<Stamp>, i: nat, j: nat)
    requires Issued(stamps) && i < j < |stamps|
    ensures IdOf(stamps[i]) != IdOf(stamps[j])
  {
    LaterAcross(stamps, i, j);
    var a, b := stamps[i], stamps[j];
    assert Legal(a) && Legal(b);
    if IdOf(a) == IdOf(b) {
      PackInjective(a.time, a.datacenter, a.worker, a.sequence, b.time, b.datacenter, b.worker, b.sequence);
    }
  }

  /** While worker and datacenter stay the same the ids strictly increase. */
  lemma IdsIncrease(stamps: seq<Stamp>, i: nat, j: nat)
    requires Issued(stamps) && i < j < |stamps|
    requires stamps[i].worker == stamps[j].worker && stamps[i].datacenter == stamps[j].datacenter
    ensures IdOf(stamps[i]) < IdOf(stamps[j])
  {
    LaterAcross(stamps, i, j);
    var a, b := stamps[i], stamps[j];
    assert Legal(a) && Legal(b);
    PackIsSum(a.time, a.datacenter, a.worker, a.sequence);
    PackIsSum(b.time, b.datacenter, b.worker, b.sequence);
  }

  /** Generators that differ in worker or datacenter never issue the same id. */
  lemma GeneratorsApart(a: Stamp, b: Stamp)
    requires Legal(a) && Legal(b) && (a.worker != b.worker || a.datacenter != b.datacenter)
    ensures IdOf(a) != IdOf(b)
  {
    if IdOf(a) == IdOf(b) {
      PackInjective(a.time, a.datacenter, a.worker, a.sequence, b.time, b.datacenter, b.worker, b.sequence);
    }
  }

  // ----- the generator

  /** `t` is the first reading after `last`. */
  ghost predicate FirstAfter(readings: seq<int>, last: int, t: int) {
    t > last && exists i :: 0 <= i < |readings| && readings[i] == t && forall j | 0 <= j < i :: readings[j] <= last
  }

  class Generator {
    const epoch: int
    var lastTimestamp: int
    var worker: int
    var datacenter: int
    var sequence: nat
    ghost var issued: seq<Stamp>

    ghost predicate Valid()
      reads this
    {
      && Issued(issued) && 0 <= worker <= MAX_WORKER_ID && 0 <= datacenter <= MAX_DATACENTER_ID
      && sequence <= SEQUENCE_MASK
      && (issued == [] ==> lastTimestamp == -1 && sequence == 0)
      && (issued != [] ==>
            && InRange(lastTimestamp) && issued[|issued| - 1].time == lastTimestamp - epoch
            && issued[|issued| - 1].sequence == sequence)
    }

    /** A clock reading at or after the epoch, within 41 bits of it. */
    predicate InRange(t: int)
      reads this
    {
      epoch <= t < epoch + TIME_LIMIT
    }

    constructor (twepoch: int)
      ensures Valid() && issued == [] && epoch == twepoch && worker == 0 && datacenter == 0
    {
      epoch := twepoch;
      lastTimestamp, worker, datacenter, sequence := -1, 0, 0, 0;
      issued := [];
    }

    /** Sets worker and datacenter; out of range is an exception and changes nothing. */
    method Init(workerId: int, datacenterId: int) returns (ok: bool)
      requires Valid()
      modifies `worker, `datacenter
      ensures Valid() && ok == (0 <= workerId <= MAX_WORKER_ID && 0 <= datacenterId <= MAX_DATACENTER_ID)
      ensures if ok then worker == workerId && datacenter == datacenterId
              else worker == old(worker) && datacenter == old(datacenter)
    {
      if workerId > MAX_WORKER_ID || workerId < 0 {
        return false;
      }
      if datacenterId > MAX_DATACENTER_ID || datacenterId < 0 {
        return false;
      }
      worker, datacenter := workerId, datacenterId;
      ok := true;
    }

    /** Non-decreasing readings in range, none before the last timestamp used. */
    ghost predicate Clock(readings: seq<int>)
      reads this
    {
      && readings != [] && (forall i | 0 <= i < |readings| :: InRange(readings[i]))
      && (forall i | 0 <= i < |readings| - 1 :: readings[i] <= readings[i + 1])
      && (issued != [] ==> lastTimestamp <= readings[0])
    }

    /** The next id. The call takes its first reading and, when the sequence of a millisecond is used
        up, further ones until the clock has moved on. */
    method NextId(readings: seq<int>) returns (id: nat)
      requires Valid() && Clock(readings)
      requires readings[0] == lastTimestamp && sequence == SEQUENCE_MASK ==> readings[|readings| - 1] > lastTimestamp
      modifies `lastTimestamp, `sequence, `issued
      ensures Valid() && |issued| == |old(issued)| + 1 && issued[..|old(issued)|] == old(issued)
      ensures id == IdOf(issued[|issued| - 1])
      ensures readings[0] != old(lastTimestamp) ==> lastTimestamp == readings[0] && sequence == 0
      ensures readings[0] == old(lastTimestamp) && old(sequence) < SEQUENCE_MASK ==>
                lastTimestamp == readings[0] && sequence == old(sequence) + 1
      ensures readings[0] == old(lastTimestamp) && old(sequence) == SEQUENCE_MASK ==>
                FirstAfter(readings, old(lastTimestamp), lastTimestamp) && sequence == 0
      ensures issued[|issued| - 1].worker == worker && issued[|issued| - 1].datacenter == datacenter
    {
      var timestamp := readings[0];
      if lastTimestamp == timestamp {
        sequence := NextSequence(sequence);
        if sequence == 0 {
          timestamp := WaitNextMillis(readings, lastTimestamp);
        }
      } else {
        sequence := 0;
      }
      ghost var stamp := Stamp(timestamp - epoch, datacenter, worker, sequence);
      IssuedNext(issued, stamp);
      lastTimestamp := timestamp;
      issued := issued + [stamp];
      id := Pack(timestamp - epoch, datacenter, worker, sequence);
    }

    /** Reads the clock until it has passed `last`: the first later reading. */
    method WaitNextMillis(readings: seq<int>, last: int) returns (timestamp: int)
      requires readings != [] && readings[|readings| - 1] > last
      ensures FirstAfter(readings, last, timestamp)
    {
      var i := 0;
      timestamp := readings[0];
      while timestamp <= last
        invariant 0 <= i < |readings| && timestamp == readings[i] && forall j | 0 <= j < i :: readings[j] <= last
        decreases |readings| - i
      {
        i := i + 1;
        timestamp := readings[i];
      }
    }
  }
}
