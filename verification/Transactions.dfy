/**
 Transaction identifiers (`message.rs`) and the simulation clock they are stamped
 with (`GlobalSimulationTime` in `config.rs`).

 An identifier is a 128-bit word: a 48-bit millisecond timestamp above 80 bits of
 randomness (the section "Binary Layout and Byte Order" of the ULID specification),
 whose lowest byte the node replaces by the transaction type.
 */
module Transactions {
  import opened Wrappers
  import opened Bits

  const TWO_48: nat := 0x1_0000_0000_0000
  const TWO_64: nat := 0x1_0000_0000_0000_0000
  const TWO_80: nat := 0x1_0000_0000_0000_0000_0000
  const TWO_128: nat := 0x1_0000_0000_0000_0000_0000_0000_0000_0000

  lemma Powers()
    ensures Pow2(8) == 256
    ensures Pow2(48) == TWO_48 && Pow2(64) == TWO_64 && Pow2(80) == TWO_80 && Pow2(128) == TWO_128
  {
    assert Pow2(8) == 256;
    hide Pow2;
    PowerOf(8, 8, 256, 256);
    PowerOf(16, 16, 0x1_0000, 0x1_0000);
    PowerOf(32, 16, 0x1_0000_0000, 0x1_0000);
    PowerOf(32, 32, 0x1_0000_0000, 0x1_0000_0000);
    PowerOf(64, 16, TWO_64, 0x1_0000);
    PowerOf(64, 64, TWO_64, TWO_64);
  }

  lemma PowerOf(m: nat, n: nat, p: nat, q: nat)
    requires Pow2(m) == p && Pow2(n) == q
    ensures Pow2(m + n) == p * q
  {
    Pow2Add(m, n);
  }

  type U64 = n: nat | n < TWO_64
  type U128 = n: nat | n < TWO_128
  type Byte = n: nat | n < 256

  /** The ten random bytes of one identifier. */
  type Randomness = r: seq<Byte> | |r| == 10 witness [0, 0, 0, 0, 0, 0, 0, 0, 0, 0]

  const OPERATION_TTL_MS: nat := 60_000

  datatype TransactionType = Connect | Put | Get | Subscribe | Update

  datatype Transaction = Transaction(id: U128, parent: Option<U128>)

  function Code(ty: TransactionType): Byte {
    match ty
    case Connect => 0
    case Put => 1
    case Get => 2
    case Subscribe => 3
    case Update => 4
  }

  /** `TransactionType::try_from`; `None` is where `transaction_type` would panic. */
  function TryFrom(code: Byte): Option<TransactionType> {
    match code
    case 0 => Some(Connect)
    case 1 => Some(Put)
    case 2 => Some(Get)
    case 3 => Some(Subscribe)
    case 4 => Some(Update)
    case _ => None
  }

  // ----- Identifiers -----

  function BigEndian(bytes: seq<Byte>): (v: nat)
    ensures v < Pow2(8 * |bytes|)
  {
    if bytes == [] then 0
    else
      Pow2Add(8 * (|bytes| - 1), 8);
      assert Pow2(8) == 256;
      BigEndian(bytes[..|bytes| - 1]) * 256 + bytes[|bytes| - 1]
  }

  /**
   The identifier that `new_ulid` assembles.  The last random byte is shifted to bit
   56, on top of bits that the middle eight bytes already occupy.
   */
  function UlidValue(ms: U64, random: Randomness): nat {
    var ts := Shl(ms, 80, 128);
    var randHigh := Shl(random[0], 72, 128);
    var randMid := BigEndian(random[1..9]);
    var randLow := Shl(random[9], 56, 128);
    Or(Or(Or(ts, randHigh), Shl(randMid, 8, 128)), randLow)
  }

  function Timestamp(id: U128): nat {
    Shr(id, 80)
  }

  function WithType(ty: TransactionType, id: U128): nat {
    Or(And(id, 0xFFFF_FFFF_FFFF_FFFF_FFFF_FFFF_FFFF_FF00), Code(ty))
  }

  function TypeOf(tx: Transaction): Option<TransactionType> {
    AndLowMask(tx.id, 8);
    assert Pow2(8) == 256;
    TryFrom(And(tx.id, 0xFF))
  }

  predicate Before(a: Transaction, b: Transaction) {
    a.id < b.id
  }

  /** `Transaction::elapsed` at clock reading `now`. */
  function Elapsed(tx: Transaction, now: nat): nat {
    if now < Timestamp(tx.id) then 0 else now - Timestamp(tx.id)
  }

  predicate TimedOut(tx: Transaction, now: nat) {
    Elapsed(tx, now) >= OPERATION_TTL_MS
  }

  /** The cutoff instant; the product of 64-bit words wraps around. */
  function CutoffMs(ms: nat, multiplier: U64): nat {
    var ttl := (OPERATION_TTL_MS * multiplier) % TWO_64;
    if ttl >= ms then 0 else ms - ttl
  }

  function CutoffValue(id: U128, multiplier: U64): nat {
    Or(And(id, 0xFFFF_FFFF_FFFF_FFFF), Shl(CutoffMs(Timestamp(id), multiplier), 80, 128))
  }

  lemma {:induction false} ShlField(a: nat, k: nat, n: nat)
    ensures Shl(a, k, k + n) == (a % Pow2(n)) * Pow2(k)
  {
    Pow2Add(k, n);
    ScaledMod(a, Pow2(k), Pow2(n));
  }

  lemma ScaledMod(a: nat, p: nat, q: nat)
    requires p > 0 && q > 0
    ensures p * q > 0 && (a * p) % (p * q) == (a % q) * p
  {
    var d, r := a / q, a % q;
    assert a * p == (p * q) * d + r * p by {
      assert a == q * d + r;
      assert (q * d + r) * p == (q * d) * p + r * p;
      assert (q * d) * p == (p * q) * d;
    }
    MulStep(p, r, q);
    DivModUnique(a * p, p * q, d, r * p);
  }

  lemma ShlSmall(a: nat, k: nat, n: nat)
    requires a < Pow2(n)
    ensures Shl(a, k, k + n) == a * Pow2(k) < Pow2(k + n)
  {
    ShlField(a, k, n);
    DivModUnique(a, Pow2(n), 0, a);
    Pow2Add(k, n);
    MulStep(Pow2(k), a, Pow2(n));
  }

  /** `a` shifted within a wider word does not reach bit `k + n`. */
  lemma ShlBelow(a: nat, k: nat, n: nat, width: nat)
    requires a < Pow2(n) && k + n <= width
    ensures Shl(a, k, width) < Pow2(k + n)
  {
    Pow2Monotone(n, width - k);
    ShlSmall(a, k, width - k);
    ShlSmall(a, k, n);
  }

  /** A timestamp field with 80 bits below it. */
  lemma FieldReads(ts: nat, low: nat)
    requires ts < TWO_48 && low < TWO_80
    ensures ts * TWO_80 + low < TWO_128
    ensures Timestamp(ts * TWO_80 + low) == ts
    ensures (ts * TWO_80 + low) % TWO_80 == low
  {
    Powers();
  }

  /** What `new_ulid` assembles has the low 48 bits of the clock as timestamp, whatever the bytes. */
  lemma UlidTimestamp(ms: U64, random: Randomness)
    ensures UlidValue(ms, random) < TWO_128
    ensures Timestamp(UlidValue(ms, random)) == ms % TWO_48
  {
    var a := Shl(random[0], 72, 128);
    var b := Shl(BigEndian(random[1..9]), 8, 128);
    var c := Shl(random[9], 56, 128);
    RandomFields(random);
    ShlField(ms, 80, 48);
    hide Or, Shl, BigEndian;
    Assembled(ms % TWO_48, a, b, c) by { Powers(); }
    Powers();
  }

  lemma RandomFields(random: Randomness)
    ensures Shl(random[0], 72, 128) < Pow2(80)
    ensures Shl(BigEndian(random[1..9]), 8, 128) < Pow2(80)
    ensures Shl(random[9], 56, 128) < Pow2(80)
  {
    Powers();
    hide Pow2, BigEndian;
    ShlBelow(random[0], 72, 8, 128);
    ShlBelow(BigEndian(random[1..9]), 8, 64, 128);
    ShlBelow(random[9], 56, 8, 128);
    Pow2Monotone(72, 80);
    Pow2Monotone(64, 80);
  }

  lemma Assembled(ts: nat, a: nat, b: nat, c: nat)
    requires ts < TWO_48 && a < Pow2(80) && b < Pow2(80) && c < Pow2(80)
    ensures var v := Or(Or(Or(ts * Pow2(80), a), b), c);
      v < TWO_128 && Timestamp(v) == ts
  {
    hide *;
    OrDisjoint(ts, a, 80);
    OrOverField(ts, a, b, 80);
    OrBound(a, b, 80);
    OrOverField(ts, Or(a, b), c, 80);
    OrBound(Or(a, b), c, 80);
    Powers();
    FieldReads(ts, Or(Or(a, b), c));
  }

  /** Stamping the type changes the lowest byte and nothing else. */
  lemma WithTypeValue(ty: TransactionType, id: U128)
    ensures WithType(ty, id) == id - id % 256 + Code(ty) < TWO_128
    ensures WithType(ty, id) % 256 == Code(ty)
    ensures Timestamp(WithType(ty, id)) == Timestamp(id)
  {
    hide Or, And, Pow2;
    assert And(id, 0xFFFF_FFFF_FFFF_FFFF_FFFF_FFFF_FFFF_FF00) == id - id % 256 by {
      Powers();
      AndHighMask(id, 128, 8);
    }
    assert Or(id / 256 * 256, Code(ty)) == id / 256 * 256 + Code(ty) by {
      Powers();
      OrDisjoint(id / 256, Code(ty), 8);
    }
    ByteReplaced(id, Code(ty));
    Powers();
  }

  lemma ByteReplaced(id: U128, c: Byte)
    ensures id - id % 256 == id / 256 * 256
    ensures var v := id - id % 256 + c;
      v < TWO_128 && v % 256 == c && v / TWO_80 == id / TWO_80
  {
    var t, rest := id / TWO_80, id % TWO_80;
    var u, q := rest / 256, rest % 256;
    assert id == t * TWO_80 + (u * 256 + q);
    assert id % 256 == q && id / 256 == t * (TWO_80 / 256) + u;
    DivModUnique(id - q + c, TWO_80, t, u * 256 + c);
    DivModUnique(id - q + c, 256, t * (TWO_80 / 256) + u, c);
  }

  /** The decoded type is the one the transaction was created with: no panic. */
  lemma TypeRoundTrip(ty: TransactionType, id: U128, parent: Option<U128>)
    ensures WithType(ty, id) < TWO_128
    ensures TypeOf(Transaction(WithType(ty, id), parent)) == Some(ty)
  {
    WithTypeValue(ty, id);
    AndLowMask(WithType(ty, id), 8);
    hide WithType, And;
    Powers();
  }

  /** The cutoff keeps 64 of the 80 low bits: the mask clears the top 16 random ones too. */
  lemma CutoffFields(id: U128, multiplier: U64)
    ensures CutoffValue(id, multiplier) == CutoffMs(Timestamp(id), multiplier) * TWO_80 + id % TWO_64
    ensures CutoffValue(id, multiplier) < TWO_128
    ensures Timestamp(CutoffValue(id, multiplier)) == CutoffMs(Timestamp(id), multiplier)
  {
    var ms := CutoffMs(Timestamp(id), multiplier);
    var low := id % TWO_64;
    Powers();
    assert ms < TWO_48;
    AndLowMask(id, 64);
    ShlSmall(ms, 80, 48);
    hide Or, And, Shl, CutoffMs;
    OrComm(low, ms * Pow2(80));
    OrDisjoint(ms, low, 80);
    FieldReads(ms, low);
  }

  // ----- The clock -----

  /** `SIMULATION_TIME_MS` and `SIMULATION_TIME_COUNTER` of one thread. */
  datatype Clock = Clock(base: Option<U64>, counter: U64)

  function SaturatingAdd(a: nat, b: nat): (r: U64)
    ensures a + b < TWO_64 ==> r == a + b
    ensures a + b >= TWO_64 ==> r == TWO_64 - 1
  {
    if a + b < TWO_64 then a + b else TWO_64 - 1
  }

  /** `read_time_ms`, where `system` is the system clock. */
  function ReadTime(clock: Clock, system: U64): U64 {
    if clock.base.Some? then SaturatingAdd(clock.base.value, clock.counter) else system
  }

  /** The clock after `current_time_ms`, which returns what `ReadTime` says. */
  function Ticked(clock: Clock): Clock {
    if clock.base.Some? then clock.(counter := (clock.counter + 1) % TWO_64) else clock
  }

  class SimulationTime {
    var base: Option<U64>
    var counter: U64

    function View(): Clock
      reads this
    {
      Clock(base, counter)
    }

    constructor ()
      ensures View() == Clock(None, 0)
    {
      base, counter := None, 0;
    }

    method SetTimeMs(ms: U64)
      modifies this
      ensures View() == Clock(Some(ms), 0)
    {
      base, counter := Some(ms), 0;
    }

    method ClearTime()
      modifies this
      ensures View() == Clock(None, 0)
    {
      base, counter := None, 0;
    }

    method CurrentTimeMs(system: U64) returns (ms: U64)
      modifies this
      ensures ms == ReadTime(old(View()), system)
      ensures View() == Ticked(old(View()))
    {
      if base.Some? {
        var val := counter;
        counter := (val + 1) % TWO_64;
        ms := SaturatingAdd(base.value, val);
      } else {
        ms := system;
      }
    }

    /** Reading does not advance the clock. */
    method ReadTimeMs(system: U64) returns (ms: U64)
      ensures ms == ReadTime(View(), system)
    {
      if base.Some? {
        ms := SaturatingAdd(base.value, counter);
      } else {
        ms := system;
      }
    }

    /** `Transaction::new` and `new_child_of` in deterministic mode. */
    method NewTransaction(ty: TransactionType, parent: Option<U128>, random: Randomness, system: U64)
      returns (tx: Transaction)
      modifies this
      ensures tx == Made(ReadTime(old(View()), system), NewTx(ty, parent), random)
      ensures View() == Ticked(old(View()))
    {
      var ms := CurrentTimeMs(system);
      tx := Made(ms, NewTx(ty, parent), random);
    }

    /** `Transaction::ttl_transaction_with_multiplier` in deterministic mode. */
    method TtlTransaction(multiplier: U64, random: Randomness, system: U64) returns (tx: Transaction)
      modifies this
      ensures tx == Made(ReadTime(old(View()), system), Cutoff(multiplier), random)
      ensures View() == Ticked(old(View()))
    {
      var ms := CurrentTimeMs(system);
      tx := Made(ms, Cutoff(multiplier), random);
    }
  }

  // ----- One generated identifier, and runs of them -----

  datatype Request = NewTx(ty: TransactionType, parent: Option<U128>) | Cutoff(multiplier: U64)

  /** A request with the random bytes that its identifier gets. */
  datatype Draw = Draw(request: Request, random: Randomness)

  /** `ttl_transaction_with_multiplier` on whatever identifier `new_ulid` gave. */
  function CutoffOf(id: U128, multiplier: U64): Transaction {
    CutoffFields(id, multiplier);
    Transaction(CutoffValue(id, multiplier), None)
  }

  /** The transaction built from whatever identifier `new_ulid` gave. */
  function FromUlid(id: U128, request: Request): Transaction {
    match request
    case NewTx(ty, parent) =>
      WithTypeValue(ty, id);
      Transaction(WithType(ty, id), parent)
    case Cutoff(multiplier) => CutoffOf(id, multiplier)
  }

  /** The transaction generated in deterministic mode when the clock says `ms`. */
  function Made(ms: U64, request: Request, random: Randomness): Transaction {
    UlidTimestamp(ms, random);
    FromUlid(UlidValue(ms, random), request)
  }

  /** The transactions generated by a run of requests, oldest first. */
  function Generate(clock: Clock, system: U64, requests: seq<Draw>): (txs: seq<Transaction>)
    ensures |txs| == |requests|
    decreases |requests|
  {
    if requests == [] then []
    else
      [Made(ReadTime(clock, system), requests[0].request, requests[0].random)]
      + Generate(Ticked(clock), system, requests[1..])
  }

  function ClockAfter(clock: Clock, n: nat): Clock
    decreases n
  {
    if n == 0 then clock else ClockAfter(Ticked(clock), n - 1)
  }
}
