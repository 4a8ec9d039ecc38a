/**
 * The relay bank: `RelayController<NUM>` over a `ShiftRegister74HC595<NUM>`.
 *
 * The shift register's output buffer is modelled as an array of NUM * 8
 * bits. A relay index addresses one bit; the level written is the logical
 * "closed" state XOR the controller's fixed inversion flag, so the "open"
 * level is `inverted` itself.
 */
module Relays {
  import opened FixedWidth

  /** Physical level that drives a relay to the logical state `closed`. */
  function Level(closed: bool, inverted: bool): (b: bool)
    ensures (b == inverted) <==> !closed
  {
    closed != inverted
  }

  /** `relayCount = NUM * 8`, stored in a `uint8`, i.e. truncated modulo 256. */
  function RelayCount(num: uint8): (c: uint8)
    ensures c <= num * 8
    ensures num * 8 < 0x100 ==> c == num * 8
    ensures c == num * 8 - 0x100 * (num / 32)
  {
    (num * 8) % 0x100
  }

  /** The buffer with every bit at the "open" level. */
  function AllOpen(n: nat, inverted: bool): (r: seq<bool>)
    ensures |r| == n
    ensures forall j :: 0 <= j < n ==> r[j] == Level(false, inverted)
  {
    seq(n, _ => inverted)
  }

  /**
   * `setRelay` on a buffer value: whether the index was accepted, and the
   * buffer afterwards. Indices at or above `relayCount` are rejected with
   * no write; otherwise only bit `id` changes.
   */
  function SetRelayOn(buf: seq<bool>, relayCount: nat, inverted: bool, id: nat, closed: bool): (r: (bool, seq<bool>))
    requires relayCount <= |buf|
    ensures r.0 <==> id < relayCount
    ensures !r.0 ==> r.1 == buf
    ensures |r.1| == |buf|
    ensures r.0 ==> r.1[id] == Level(closed, inverted)
    ensures forall j :: 0 <= j < |buf| && j != id ==> r.1[j] == buf[j]
  {
    if id >= relayCount then (false, buf)
    else (true, buf[id := closed != inverted])
  }

  /** A call a client makes on the controller after construction. */
  datatype Op = SetRelay(id: uint8, closed: bool) | OpenAllRelays

  /** One operation on a buffer value. */
  function Apply(buf: seq<bool>, relayCount: nat, inverted: bool, op: Op): (r: seq<bool>)
    requires relayCount <= |buf|
    ensures |r| == |buf|
  {
    match op
    case SetRelay(id, closed) => SetRelayOn(buf, relayCount, inverted, id, closed).1
    case OpenAllRelays => AllOpen(|buf|, inverted)
  }

  /** The buffer after the operations `ops`, applied in order. */
  function Run(buf: seq<bool>, relayCount: nat, inverted: bool, ops: seq<Op>): (r: seq<bool>)
    requires relayCount <= |buf|
    ensures |r| == |buf|
    decreases |ops|
  {
    if ops == [] then buf
    else Apply(Run(buf, relayCount, inverted, ops[..|ops| - 1]), relayCount, inverted, ops[|ops| - 1])
  }

  /**
   * The logical state last requested for relay `j` by `ops`: the `closed`
   * argument of the last accepted `SetRelay(j, _)`, or "open" if an
   * `OpenAllRelays` comes later; None when no operation addressed it.
   */
  function Requested(ops: seq<Op>, relayCount: nat, j: nat): Option<bool>
    decreases |ops|
  {
    if ops == [] then None
    else match ops[|ops| - 1]
      case SetRelay(id, closed) =>
        if id == j && id < relayCount then Some(closed)
        else Requested(ops[..|ops| - 1], relayCount, j)
      case OpenAllRelays => Some(false)
  }

  /**
   * The controller is write-only, and the level of every bit is determined
   * by the last request that addressed it: a caller that tracks its own
   * requests knows the physical state of every relay.
   */
  lemma {:induction false} LastRequestWins(buf: seq<bool>, relayCount: nat, inverted: bool, ops: seq<Op>, j: nat)
    requires relayCount <= |buf| && j < |buf|
    ensures Run(buf, relayCount, inverted, ops)[j] ==
      match Requested(ops, relayCount, j)
      case Some(closed) => Level(closed, inverted)
      case None => buf[j]
    decreases |ops|
  {
    if ops != [] {
      LastRequestWins(buf, relayCount, inverted, ops[..|ops| - 1], j);
    }
  }

  /** A relay that no operation closed is still open after any operations that start from all-open. */
  lemma {:induction false} NeverClosedStaysOpen(n: nat, relayCount: nat, inverted: bool, ops: seq<Op>, j: nat)
    requires relayCount <= n && j < n
    requires forall k :: 0 <= k < |ops| ==> !(ops[k].SetRelay? && ops[k].id == j && ops[k].closed)
    ensures Run(AllOpen(n, inverted), relayCount, inverted, ops)[j] == Level(false, inverted)
  {
    LastRequestWins(AllOpen(n, inverted), relayCount, inverted, ops, j);
    RequestedNotClosed(ops, relayCount, j);
  }

  lemma {:induction false} RequestedNotClosed(ops: seq<Op>, relayCount: nat, j: nat)
    requires forall k :: 0 <= k < |ops| ==> !(ops[k].SetRelay? && ops[k].id == j && ops[k].closed)
    ensures Requested(ops, relayCount, j) != Some(true)
    decreases |ops|
  {
    if ops != [] {
      RequestedNotClosed(ops[..|ops| - 1], relayCount, j);
    }
  }

  /** `openAllRelays` is idempotent. */
  lemma OpenAllIdempotent(buf: seq<bool>, relayCount: nat, inverted: bool)
    requires relayCount <= |buf|
    ensures Run(buf, relayCount, inverted, [OpenAllRelays, OpenAllRelays]) == Run(buf, relayCount, inverted, [OpenAllRelays])
  {
    assert [OpenAllRelays, OpenAllRelays][..1] == [OpenAllRelays];
    assert [OpenAllRelays][..0] == [];
  }

  /** After `openAllRelays`, opening any single valid relay writes the level already there. */
  lemma OpenAfterOpenAllUnchanged(n: nat, relayCount: nat, inverted: bool, id: nat)
    requires relayCount <= n && id < relayCount
    ensures SetRelayOn(AllOpen(n, inverted), relayCount, inverted, id, false) == (true, AllOpen(n, inverted))
  {
    assert AllOpen(n, inverted)[id := Level(false, inverted)] == AllOpen(n, inverted);
  }

  /** With the firmware's four shift registers there are 32 relays, and index 255 is rejected without a write. */
  lemma FirmwareRelayCount(buf: seq<bool>, inverted: bool, closed: bool)
    requires |buf| == 4 * 8
    ensures RelayCount(4) == 32
    ensures SetRelayOn(buf, RelayCount(4), inverted, 255, closed) == (false, buf)
  {
  }

  /** From 32 shift registers on, `NUM * 8` no longer fits the `uint8` relay count. */
  lemma RelayCountTruncates()
    ensures RelayCount(31) == 248
    ensures RelayCount(32) == 0
    ensures RelayCount(33) == 8
  {
  }

  /** `ShiftRegister74HC595<NUM>`: the output buffer of NUM chained 8-bit shift registers. */
  class ShiftRegister {
    const bits: array<bool>

    constructor (num: uint8)
      ensures bits.Length == num * 8
      ensures fresh(bits)
    {
      bits := new bool[num * 8];
    }

    /** `set(pin, value)`: drives output `pin` to `value`. */
    method Set(pin: nat, value: bool)
      requires pin < bits.Length
      modifies bits
      ensures bits[..] == old(bits[..])[pin := value]
    {
      bits[pin] := value;
    }

    /** `setAllHigh()`. */
    method SetAllHigh()
      modifies bits
      ensures forall j :: 0 <= j < bits.Length ==> bits[j]
    {
      forall j | 0 <= j < bits.Length {
        bits[j] := true;
      }
    }

    /** `setAllLow()`. */
    method SetAllLow()
      modifies bits
      ensures forall j :: 0 <= j < bits.Length ==> !bits[j]
    {
      forall j | 0 <= j < bits.Length {
        bits[j] := false;
      }
    }
  }

  /** `RelayController<NUM>`. */
  class RelayController {
    /** The template parameter NUM: how many shift registers are chained. */
    const num: uint8
    const shiftRegister: ShiftRegister
    const relayCount: uint8
    const inverted: bool

    /** The logical state (closed or open) that each bit of the buffer encodes. */
    ghost var closedRelays: seq<bool>

    /** The shift register's buffer. */
    ghost function Bits(): seq<bool>
      reads this, shiftRegister, shiftRegister.bits
    {
      shiftRegister.bits[..]
    }

    /** How the fields are wired together, independent of the buffer contents. */
    ghost predicate Wired()
      reads this, shiftRegister
    {
      shiftRegister.bits.Length == num * 8 && relayCount == RelayCount(num)
    }

    ghost predicate Valid()
      reads this, shiftRegister, shiftRegister.bits
    {
      Wired() &&
      |closedRelays| == shiftRegister.bits.Length &&
      forall j :: 0 <= j < |closedRelays| ==> shiftRegister.bits[j] == Level(closedRelays[j], inverted)
    }

    /** The constructor fixes the relay count and the inversion flag, and opens every relay. */
    constructor (num: uint8, invertRelays: bool)
      ensures Valid() && fresh(shiftRegister) && fresh(shiftRegister.bits)
      ensures relayCount == RelayCount(num) && inverted == invertRelays
      ensures Bits() == AllOpen(num * 8, invertRelays)
      ensures closedRelays == seq(num * 8, _ => false)
    {
      this.num := num;
      shiftRegister := new ShiftRegister(num);
      relayCount := RelayCount(num);
      inverted := invertRelays;
      new;
      OpenAllRelays();
    }

    /** `setRelay(relayId, closed)`. */
    method SetRelay(relayId: uint8, closed: bool) returns (ok: bool)
      requires Valid()
      modifies this, shiftRegister.bits
      ensures Valid()
      ensures (ok, Bits()) == SetRelayOn(old(Bits()), relayCount, inverted, relayId, closed)
      ensures closedRelays == if ok then old(closedRelays)[relayId := closed] else old(closedRelays)
    {
      if relayId >= relayCount {
        return false;
      }
      shiftRegister.Set(relayId, closed != inverted);
      closedRelays := closedRelays[relayId := closed];
      return true;
    }

    /** `openAllRelays()`: every bit at the "open" level, high exactly when inverted. */
    method OpenAllRelays()
      requires Wired()
      modifies this, shiftRegister.bits
      ensures Valid()
      ensures Bits() == AllOpen(shiftRegister.bits.Length, inverted)
      ensures closedRelays == seq(shiftRegister.bits.Length, _ => false)
    {
      if inverted {
        shiftRegister.SetAllHigh();
      } else {
        shiftRegister.SetAllLow();
      }
      closedRelays := seq(shiftRegister.bits.Length, _ => false);
    }
  }
}
