/**
 Ordering, age and decoding of transaction identifiers, over single identifiers and
 over whole simulated runs.
 */
module TransactionTheorems {
  import opened Wrappers
  import opened Bits
  import opened Transactions

  /** An earlier timestamp orders first, whatever the bits below it. */
  lemma EarlierOrdersFirst(a: Transaction, b: Transaction)
    requires Timestamp(a.id) < Timestamp(b.id)
    ensures Before(a, b)
  {
    Powers();
    hide Pow2;
  }

  lemma FieldSplit(id: U128)
    ensures id == Timestamp(id) * TWO_80 + id % TWO_80
    ensures Timestamp(id) < TWO_48
  {
    Powers();
    hide Pow2;
  }

  /** What can be read back from a transaction, whatever identifier it was built from. */
  lemma BuiltFields(id: U128, request: Request)
    ensures request.NewTx? ==>
      var tx := FromUlid(id, request);
      && Timestamp(tx.id) == Timestamp(id)
      && TypeOf(tx) == Some(request.ty)
      && tx.parent == request.parent
    ensures request.Cutoff? ==>
      var tx := FromUlid(id, request);
      && tx.parent.None?
      && Timestamp(tx.id) == CutoffMs(Timestamp(id), request.multiplier)
      && tx.id % TWO_80 == id % TWO_64
  {
    hide WithType, CutoffValue, TypeOf;
    match request
    case NewTx(ty, parent) =>
      WithTypeValue(ty, id);
      TypeRoundTrip(ty, id, parent);
    case Cutoff(multiplier) => CutoffReads(id, multiplier);
  }

  lemma CutoffReads(id: U128, multiplier: U64)
    ensures var tx := CutoffOf(id, multiplier);
      Timestamp(tx.id) == CutoffMs(Timestamp(id), multiplier) && tx.id % TWO_80 == id % TWO_64
  {
    FieldSplit(id);
    var instant := CutoffMs(Timestamp(id), multiplier);
    assert instant < TWO_48;
    hide CutoffValue, CutoffMs, Timestamp;
    CutoffFields(id, multiplier);
    FieldReads(instant, id % TWO_64);
  }

  /** The same in deterministic mode, where the timestamp is the low 48 bits of the clock. */
  lemma MadeFields(ms: U64, request: Request, random: Randomness)
    ensures request.NewTx? ==>
      var tx := Made(ms, request, random);
      && Timestamp(tx.id) == ms % TWO_48
      && TypeOf(tx) == Some(request.ty)
      && tx.parent == request.parent
    ensures request.Cutoff? ==>
      var tx := Made(ms, request, random);
      && tx.parent.None?
      && Timestamp(tx.id) == CutoffMs(ms % TWO_48, request.multiplier)
      && tx.id % TWO_80 < TWO_64
  {
    hide UlidValue, FromUlid, TypeOf, Timestamp, CutoffMs;
    UlidTimestamp(ms, random);
    BuiltFields(UlidValue(ms, random), request);
  }

  /** The type is in the lowest byte, and decoding fails exactly from 5 on. */
  lemma DecodesExactly(tx: Transaction)
    ensures TypeOf(tx) ==
      if tx.id % 256 < 5 then Some([Connect, Put, Get, Subscribe, Update][tx.id % 256]) else None
  {
    hide And, Pow2;
    Powers();
    AndLowMask(tx.id, 8);
  }

  // ----- Where the random bytes go -----

  const TWO_8: nat := 0x100
  const TWO_56: nat := 0x100_0000_0000_0000
  const TWO_72: nat := 0x100_0000_0000_0000_0000

  lemma MorePowers()
    ensures Pow2(8) == TWO_8 && Pow2(56) == TWO_56 && Pow2(72) == TWO_72 && Pow2(64) == TWO_64 && Pow2(80) == TWO_80
  {
    Powers();
    hide Pow2;
    PowerOf(48, 8, TWO_48, TWO_8);
    PowerOf(64, 8, TWO_64, TWO_8);
  }

  lemma {:induction false} BigEndianCons(b: Byte, bytes: seq<Byte>)
    ensures BigEndian([b] + bytes) == b * Pow2(8 * |bytes|) + BigEndian(bytes)
  {
    hide Pow2;
    Powers();
    var all := [b] + bytes;
    if bytes == [] {
      assert all == [b] && all[..0] == [];
      MorePowers();
      PowerZero();
    } else {
      var front, last := bytes[..|bytes| - 1], bytes[|bytes| - 1];
      BigEndianCons(b, front);
      BigEndianSnoc([b] + front, last);
      BigEndianSnoc(front, last);
      hide BigEndian;
      assert all == ([b] + front) + [last] && bytes == front + [last];
      Pow2Add(8 * |front|, 8);
      Reassociate(b, Pow2(8 * |front|));
    }
  }

  lemma PowerZero()
    ensures Pow2(0) == 1
  {
  }

  lemma Reassociate(b: nat, p: nat)
    ensures (b * p) * 256 == b * (p * 256)
  {
  }

  lemma BigEndianSnoc(bytes: seq<Byte>, last: Byte)
    ensures BigEndian(bytes + [last]) == BigEndian(bytes) * 256 + last
  {
    hide Pow2;
    assert (bytes + [last])[..|bytes|] == bytes;
  }

  /** The middle eight bytes, the first two split off. */
  lemma MiddleBytes(random: Randomness)
    ensures BigEndian(random[3..9]) < TWO_48
    ensures BigEndian(random[1..9]) == random[1] * TWO_56 + random[2] * TWO_48 + BigEndian(random[3..9])
  {
    hide BigEndian, Pow2;
    MorePowers();
    Powers();
    assert random[1..9] == [random[1]] + random[2..9];
    assert random[2..9] == [random[2]] + random[3..9];
    BigEndianCons(random[1], random[2..9]);
    BigEndianCons(random[2], random[3..9]);
    assert BigEndian(random[3..9]) < Pow2(8 * |random[3..9]|);
  }

  lemma ShiftedBytes(ms: U64, random: Randomness)
    ensures Shl(ms, 80, 128) == (ms % TWO_48) * TWO_80
    ensures Shl(random[0], 72, 128) == random[0] * TWO_72
    ensures Shl(BigEndian(random[1..9]), 8, 128) == BigEndian(random[1..9]) * TWO_8
    ensures Shl(random[9], 56, 128) == random[9] * TWO_56
  {
    MorePowers();
    Powers();
    ShlField(ms, 80, 48);
    assert BigEndian(random[1..9]) < Pow2(8 * |random[1..9]|);
    hide Shl, BigEndian, Pow2;
    Pow2Monotone(8, 56);
    Pow2Monotone(8, 72);
    Pow2Monotone(64, 120);
    ShlSmall(random[0], 72, 56);
    ShlSmall(BigEndian(random[1..9]), 8, 120);
    ShlSmall(random[9], 56, 72);
  }

  /**
   Which byte of the randomness each byte of a deterministic identifier is: the first two
   bytes below the timestamp are bytes 0 and 1, then byte 2 overlaid with byte 9, then
   bytes 3 to 8; the lowest byte is left for the type.
   */
  lemma UlidBytes(ms: U64, random: Randomness)
    ensures UlidValue(ms, random) ==
      (ms % TWO_48) * TWO_80 + random[0] * TWO_72 + random[1] * TWO_64 + Or(random[2], random[9]) * TWO_56
      + BigEndian(random[3..9]) * TWO_8
  {
    hide Or, Shl, BigEndian;
    ShiftedBytes(ms, random);
    MiddleBytes(random);
    var ts, low := ms % TWO_48, BigEndian(random[3..9]) * TWO_8;
    assert BigEndian(random[1..9]) * TWO_8 == random[1] * TWO_64 + random[2] * TWO_56 + low;
    AssembledBytes(ts, random[0], random[1], random[2], random[9], low);
  }

  lemma AssembledBytes(ts: nat, r0: Byte, r1: Byte, r2: Byte, r9: Byte, low: nat)
    requires low < TWO_56
    ensures Or(Or(Or(ts * TWO_80, r0 * TWO_72), r1 * TWO_64 + r2 * TWO_56 + low), r9 * TWO_56)
         == ts * TWO_80 + r0 * TWO_72 + r1 * TWO_64 + Or(r2, r9) * TWO_56 + low
  {
    hide Or, Pow2;
    MorePowers();
    OrDisjoint(ts, r0 * TWO_72, 80);
    assert ts * TWO_80 + r0 * TWO_72 == (ts * TWO_8 + r0) * TWO_72;
    var middle := r1 * TWO_64 + r2 * TWO_56 + low;
    OrDisjoint(ts * TWO_8 + r0, middle, 72);
    var above := (ts * TWO_8 + r0) * TWO_8 + r1;
    assert (ts * TWO_8 + r0) * TWO_72 + middle == (above * TWO_8 + r2) * TWO_56 + low;
    OrAboveField(above * TWO_8 + r2, r9, low, 56);
    OrOverField(above, r2, r9, 8);
  }

  // ----- Runs under the simulation clock -----

  /** The simulation clock is set, and `n` more readings stay within the 48-bit timestamp. */
  ghost predicate WithinRange(clock: Clock, n: nat) {
    clock.base.Some? && clock.base.value + clock.counter + n <= TWO_48
  }

  /** The `i`th identifier of a run is stamped with the base plus its index. */
  lemma {:induction false} GeneratedAt(clock: Clock, system: U64, draws: seq<Draw>, i: nat)
    requires WithinRange(clock, |draws|) && i < |draws|
    ensures var ms := clock.base.value + clock.counter + i;
      ms < TWO_48 && Generate(clock, system, draws)[i] == Made(ms, draws[i].request, draws[i].random)
    decreases i
  {
    hide Made;
    if i == 0 {
    } else {
      GeneratedAt(Ticked(clock), system, draws[1..], i - 1);
    }
  }

  lemma {:induction false} ReadAfter(clock: Clock, system: U64, n: nat)
    requires WithinRange(clock, n)
    ensures ReadTime(ClockAfter(clock, n), system) == clock.base.value + clock.counter + n
    decreases n
  {
    if n == 0 {
    } else {
      ReadAfter(Ticked(clock), system, n - 1);
    }
  }

  /**
   Every run of generated identifiers between two resets of the simulation clock.
   The timestamp is the base plus the generation index, later transactions order
   later, types and parents decode, and the age of a transaction is the number of
   identifiers generated since, itself included: after 60,000 of them it is timed out.
   */
  lemma SimulationRun(clock: Clock, system: U64, draws: seq<Draw>)
    requires WithinRange(clock, |draws|)
    ensures var txs, now := Generate(clock, system, draws), ReadTime(ClockAfter(clock, |draws|), system);
      && (forall i :: 0 <= i < |draws| && draws[i].request.NewTx? ==>
            && Timestamp(txs[i].id) == clock.base.value + clock.counter + i
            && TypeOf(txs[i]) == Some(draws[i].request.ty)
            && txs[i].parent == draws[i].request.parent
            && Elapsed(txs[i], now) == |draws| - i
            && (TimedOut(txs[i], now) <==> |draws| - i >= 60_000))
      && (forall i, j :: 0 <= i < j < |draws| && draws[i].request.NewTx? && draws[j].request.NewTx? ==>
            Before(txs[i], txs[j]) && txs[i] != txs[j])
  {
    hide Generate, Made, TypeOf, ClockAfter, Timestamp, ReadTime;
    var txs := Generate(clock, system, draws);
    ReadAfter(clock, system, |draws|);
    forall i | 0 <= i < |draws| && draws[i].request.NewTx?
      ensures Timestamp(txs[i].id) == clock.base.value + clock.counter + i
      ensures TypeOf(txs[i]) == Some(draws[i].request.ty)
      ensures txs[i].parent == draws[i].request.parent
    {
      GeneratedAt(clock, system, draws, i);
      MadeFields(clock.base.value + clock.counter + i, draws[i].request, draws[i].random);
    }
    forall i, j | 0 <= i < j < |draws| && draws[i].request.NewTx? && draws[j].request.NewTx?
      ensures Before(txs[i], txs[j])
    {
      EarlierOrdersFirst(txs[i], txs[j]);
    }
  }

  /**
   Without a simulation clock every reading is the system's, and readings change nothing:
   a transaction's age is the time that passed since its identifier was stamped, none if
   the clock went back, and it is timed out exactly from 60 seconds on.
   */
  lemma SystemClockAge(id: U128, ty: TransactionType, parent: Option<U128>, counter: U64, system: U64)
    ensures var clock := Clock(None, counter);
      && Ticked(clock) == clock && ReadTime(clock, system) == system
      && var tx := FromUlid(id, NewTx(ty, parent));
         && Elapsed(tx, ReadTime(clock, system)) == (if system < Timestamp(id) then 0 else system - Timestamp(id))
         && (TimedOut(tx, ReadTime(clock, system)) <==> system >= Timestamp(id) + 60_000)
  {
    hide FromUlid, Timestamp, TypeOf;
    BuiltFields(id, NewTx(ty, parent));
  }

  /**
   Consecutive identifiers order by generation except exactly where the clock rolls
   over the 48-bit timestamp field.
   */
  lemma ConsecutiveOrder(ms: U64, a: Draw, b: Draw)
    requires ms + 1 < TWO_64 && a.request.NewTx? && b.request.NewTx?
    ensures Before(Made(ms, a.request, a.random), Made(ms + 1, b.request, b.random))
       <==> (ms + 1) % TWO_48 != 0
  {
    hide Made, Timestamp, TypeOf;
    MadeFields(ms, a.request, a.random);
    MadeFields(ms + 1, b.request, b.random);
    var x, y := Made(ms, a.request, a.random), Made(ms + 1, b.request, b.random);
    assert (ms + 1) % TWO_48 == (if ms % TWO_48 == TWO_48 - 1 then 0 else ms % TWO_48 + 1);
    if (ms + 1) % TWO_48 != 0 {
      EarlierOrdersFirst(x, y);
    } else {
      EarlierOrdersFirst(y, x);
    }
  }

  // ----- The time-to-live cutoff -----

  /** A product that fits below the clock does not wrap. */
  lemma CutoffInstant(ms: nat, multiplier: U64)
    requires OPERATION_TTL_MS * multiplier <= ms < TWO_48
    ensures CutoffMs(ms, multiplier) == ms - OPERATION_TTL_MS * multiplier
  {
  }

  /**
   The order-based cutoff agrees with age.  A transaction orders below the cutoff built
   from `id` exactly when it is older than the scaled time to live, or is exactly that
   old and its 80 low bits are below the 64 the cutoff kept.
   */
  lemma CutoffOrder(tx: Transaction, id: U128, multiplier: U64)
    requires OPERATION_TTL_MS * multiplier <= Timestamp(id)
    ensures var age := Timestamp(id) - Timestamp(tx.id);
      Before(tx, CutoffOf(id, multiplier)) <==>
        || age > OPERATION_TTL_MS * multiplier
        || (age == OPERATION_TTL_MS * multiplier && tx.id % TWO_80 < id % TWO_64)
  {
    hide CutoffOf, CutoffMs, Timestamp;
    FieldSplit(id);
    CutoffReads(id, multiplier);
    CutoffInstant(Timestamp(id), multiplier);
    FieldSplit(tx.id);
    FieldSplit(CutoffOf(id, multiplier).id);
  }

  /** Whatever is collected by the cutoff has lived its time, at any later clock reading. */
  lemma CutoffOnlyTakesTheOld(tx: Transaction, id: U128, multiplier: U64, now: nat)
    requires OPERATION_TTL_MS * multiplier <= Timestamp(id) <= now
    requires Before(tx, CutoffOf(id, multiplier))
    ensures Elapsed(tx, now) >= OPERATION_TTL_MS * multiplier
    ensures multiplier >= 1 ==> TimedOut(tx, now)
  {
    hide CutoffOf, Timestamp;
    CutoffOrder(tx, id, multiplier);
  }

  /** Everything that orders below the cutoff has lived the scaled time to live. */
  ghost predicate TakesOnlyTheOld(id: U128, multiplier: U64) {
    forall tx :: Before(tx, CutoffOf(id, multiplier)) ==> Elapsed(tx, Timestamp(id)) >= OPERATION_TTL_MS * multiplier
  }

  /**
   When a cutoff takes only the old: exactly when the scaled time to live fits below
   the clock, or the cutoff is the smallest identifier, which nothing orders below.
   That last case takes a saturated or wrapped-away instant and no bit among the 64
   that are kept.
   */
  lemma CutoffTakesOnlyTheOldExactly(id: U128, multiplier: U64)
    ensures TakesOnlyTheOld(id, multiplier) <==>
      || OPERATION_TTL_MS * multiplier <= Timestamp(id)
      || (CutoffMs(Timestamp(id), multiplier) == 0 && id % TWO_64 == 0)
  {
    hide CutoffOf, Timestamp, CutoffMs;
    var cutoff := CutoffOf(id, multiplier);
    if OPERATION_TTL_MS * multiplier <= Timestamp(id) {
      forall tx | Before(tx, cutoff) ensures Elapsed(tx, Timestamp(id)) >= OPERATION_TTL_MS * multiplier {
        CutoffOnlyTakesTheOld(tx, id, multiplier, Timestamp(id));
      }
    } else {
      CutoffReads(id, multiplier);
      FieldSplit(cutoff.id);
      if cutoff.id > 0 {
        var oldest := Transaction(0, None);
        assert Before(oldest, cutoff);
        assert Elapsed(oldest, Timestamp(id)) <= Timestamp(id);
      }
    }
  }

  /** So a multiplier is safe whatever the random bits exactly when its product fits below the clock. */
  lemma SafeMultiplierExactly(ms: nat, multiplier: U64)
    requires ms < TWO_48
    ensures (forall id: U128 :: Timestamp(id) == ms ==> TakesOnlyTheOld(id, multiplier)) <==>
      OPERATION_TTL_MS * multiplier <= ms
  {
    hide TakesOnlyTheOld, CutoffMs, Timestamp;
    forall id: U128 | Timestamp(id) == ms
      ensures TakesOnlyTheOld(id, multiplier) <==>
        || OPERATION_TTL_MS * multiplier <= ms
        || (CutoffMs(ms, multiplier) == 0 && id % TWO_64 == 0)
    {
      CutoffTakesOnlyTheOldExactly(id, multiplier);
    }
    FieldReads(ms, 1);
    var odd: U128 := ms * TWO_80 + 1;
    DivModUnique(odd, TWO_64, ms * 65536, 1);
    assert Timestamp(odd) == ms && odd % TWO_64 == 1;
  }

  /** The same with the random bits that deterministic mode can draw. */
  lemma SafeDeterministicMultiplierExactly(ms: nat, multiplier: U64)
    requires ms < TWO_48
    ensures (forall random: Randomness :: TakesOnlyTheOld(Ulid(ms, random), multiplier)) <==>
      OPERATION_TTL_MS * multiplier <= ms
  {
    hide TakesOnlyTheOld, CutoffMs, UlidValue, Timestamp;
    forall random: Randomness
      ensures TakesOnlyTheOld(Ulid(ms, random), multiplier) <==>
        || OPERATION_TTL_MS * multiplier <= ms
        || (CutoffMs(ms, multiplier) == 0 && UlidValue(ms, random) % TWO_64 == 0)
    {
      UlidTimestamp(ms, random);
      CutoffTakesOnlyTheOldExactly(Ulid(ms, random), multiplier);
    }
    assert UlidValue(ms, OneBit()) % TWO_64 != 0 by { OneBitLow(ms); }
    assert TakesOnlyTheOld(Ulid(ms, OneBit()), multiplier) ==> OPERATION_TTL_MS * multiplier <= ms;
  }

  /** The identifier of deterministic mode as a word. */
  function Ulid(ms: U64, random: Randomness): U128 {
    UlidTimestamp(ms, random);
    UlidValue(ms, random)
  }

  /** Random bytes with a single bit set, in the ninth. */
  function OneBit(): Randomness {
    [0, 0, 0, 0, 0, 0, 0, 0, 1, 0]
  }

  lemma OneBitLow(ms: U64)
    ensures UlidValue(ms, OneBit()) % TWO_64 == 256
  {
    hide Or, Shl, BigEndian;
    OneBitParts(ms);
    OneBitOr(ms % TWO_48);
  }

  lemma OneBitParts(ms: U64)
    ensures Shl(ms, 80, 128) == (ms % TWO_48) * TWO_80
    ensures BigEndian(OneBit()[1..9]) == 1 && Shl(1, 8, 128) == 256
    ensures Shl(0, 72, 128) == 0 && Shl(0, 56, 128) == 0
  {
    hide Shl, Pow2;
    Powers();
    ShlField(ms, 80, 48);
    SmallShifts();
    assert OneBit()[1..9] == [0, 0, 0, 0, 0, 0, 0, 1];
    BigEndianOne();
  }

  lemma SmallShifts()
    ensures Shl(1, 8, 128) == 256 && Shl(0, 72, 128) == 0 && Shl(0, 56, 128) == 0
  {
    Powers();
    hide Pow2;
  }

  lemma BigEndianOne()
    ensures BigEndian([0, 0, 0, 0, 0, 0, 0, 1]) == 1
  {
    var bytes: seq<Byte> := [0, 0, 0, 0, 0, 0, 0, 1];
    ZeroBytes(bytes[..7]);
  }

  lemma OneBitOr(ts: nat)
    ensures Or(Or(Or(ts * TWO_80, 0), 256), 0) % TWO_64 == 256
  {
    Powers();
    hide Or, Pow2;
    OrZero(ts * TWO_80);
    OrDisjoint(ts, 256, 80);
    OrZero(ts * TWO_80 + 256);
    DivModUnique(ts * TWO_80 + 256, TWO_64, ts * 65536, 256);
  }

  lemma {:induction false} ZeroBytes(bytes: seq<Byte>)
    requires forall i :: 0 <= i < |bytes| ==> bytes[i] == 0
    ensures BigEndian(bytes) == 0
  {
    if bytes == [] {
    } else {
      ZeroBytes(bytes[..|bytes| - 1]);
    }
  }

  /** Created strictly before the cutoff instant: collected, whatever the low bits. */
  lemma CutoffTakesAllTheOld(tx: Transaction, id: U128, multiplier: U64)
    requires Timestamp(tx.id) < Timestamp(id) - OPERATION_TTL_MS * multiplier
    ensures Before(tx, CutoffOf(id, multiplier))
  {
    hide CutoffOf, Timestamp;
    CutoffOrder(tx, id, multiplier);
  }

  /** Before a full time to live has passed on the clock, nothing with a timestamp is collected. */
  lemma CutoffSaturates(tx: Transaction, id: U128, multiplier: U64)
    requires Timestamp(id) < OPERATION_TTL_MS * multiplier < TWO_64
    requires Before(tx, CutoffOf(id, multiplier))
    ensures Timestamp(tx.id) == 0
  {
    hide CutoffOf, Timestamp;
    CutoffReads(id, multiplier);
    if Timestamp(tx.id) > 0 {
      EarlierOrdersFirst(CutoffOf(id, multiplier), tx);
    }
  }

  /**
   A multiplier whose product wraps makes the cutoff collect transactions of any age:
   with 2 to the power 59 even a transaction one millisecond old orders below it.
   */
  lemma WrappedMultiplierCollectsTheYoung(tx: Transaction, id: U128)
    requires Timestamp(tx.id) < Timestamp(id)
    ensures Before(tx, CutoffOf(id, 0x800_0000_0000_0000))
  {
    hide CutoffOf, Timestamp;
    var multiplier: U64 := 0x800_0000_0000_0000;
    assert CutoffMs(Timestamp(id), multiplier) == Timestamp(id);
    CutoffReads(id, multiplier);
    EarlierOrdersFirst(tx, CutoffOf(id, multiplier));
  }

  /** In deterministic mode the cutoff is built from the assembled identifier, so all of this applies to it. */
  lemma DeterministicCutoff(ms: U64, multiplier: U64, random: Randomness)
    ensures Made(ms, Cutoff(multiplier), random) == CutoffOf(Ulid(ms, random), multiplier)
    ensures Timestamp(Ulid(ms, random)) == ms % TWO_48
  {
    hide UlidValue, CutoffValue, Timestamp;
    UlidTimestamp(ms, random);
  }
}
