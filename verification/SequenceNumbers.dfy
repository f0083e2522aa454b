/** Sequence numbers of a secure channel: the numbers a sender gives to its chunks and the numbers a
    receiver accepts, in the legacy scheme and in the full 32-bit scheme. */
module SequenceNumbers {
  import opened Words

  const ROLLOVER: nat := 4294966271

  type U32 = x: nat | x < W32

  /** Unsigned 32-bit increment. */
  function Succ(x: U32): U32 {
    if x == W32 - 1 then 0 else x + 1
  }

  /// Sender

  /** The counter after the next chunk. */
  function NextCounter(legacy: bool, counter: U32): U32 {
    var next: nat := counter + 1;
    if legacy then (if next > ROLLOVER then 1 else next)
    else if next > W32 - 1 then 0 else next
  }

  /** The number that is written into the next chunk. */
  function Emitted(legacy: bool, counter: U32): U32 {
    var next := NextCounter(legacy, counter);
    if legacy then next else if next == 0 then W32 - 1 else next - 1
  }

  /** The numbers of the next `n` chunks. */
  function Sent(legacy: bool, counter: U32, n: nat): (ss: seq<U32>)
    ensures |ss| == n
    decreases n
  {
    if n == 0 then [] else [Emitted(legacy, counter)] + Sent(legacy, NextCounter(legacy, counter), n - 1)
  }

  /// Receiver

  /** The check of an incoming number against the last accepted one. */
  predicate Accepts(legacy: bool, last: U32, number: U32) {
    number == Succ(last) || (legacy && Succ(last) > ROLLOVER && number < 1024)
  }

  /** All numbers are accepted one after the other. */
  predicate AcceptsAll(legacy: bool, last: U32, numbers: seq<U32>)
    decreases |numbers|
  {
    numbers == [] || (Accepts(legacy, last, numbers[0]) && AcceptsAll(legacy, numbers[0], numbers[1..]))
  }

  /// Both ends together

  /** The receiver waits for the number that the sender writes next. */
  predicate InStep(legacy: bool, counter: U32, last: U32) {
    if legacy then counter == last && last <= ROLLOVER else counter == Succ(last)
  }

  /** The opening exchange leaves both ends in step: the first number ever sent initialises the receiver. */
  lemma OpeningInStep(legacy: bool)
    ensures InStep(legacy, NextCounter(legacy, 0), Emitted(legacy, 0))
    ensures Emitted(legacy, 0) == if legacy then 1 else 0
  {
  }

  /** The next number sent is accepted, and both ends stay in step. */
  lemma StaysInStep(legacy: bool, counter: U32, last: U32)
    requires InStep(legacy, counter, last)
    ensures Accepts(legacy, last, Emitted(legacy, counter))
    ensures InStep(legacy, NextCounter(legacy, counter), Emitted(legacy, counter))
  {
  }

  /** Whatever is sent in order is accepted, for any number of chunks and across every rollover. */
  lemma {:induction false} SentIsAccepted(legacy: bool, counter: U32, last: U32, n: nat)
    requires InStep(legacy, counter, last)
    ensures AcceptsAll(legacy, last, Sent(legacy, counter, n))
    decreases n
  {
    if n > 0 {
      StaysInStep(legacy, counter, last);
      var rest := Sent(legacy, NextCounter(legacy, counter), n - 1);
      assert Sent(legacy, counter, n)[1..] == rest;
      SentIsAccepted(legacy, NextCounter(legacy, counter), Emitted(legacy, counter), n - 1);
    }
  }

  /** The numbers that are sent: from the counter on modulo 2^32, or in the legacy scheme from one above it up to
      4294966271 and again from one. */
  lemma {:induction false} SentNumbers(legacy: bool, counter: U32, n: nat, i: nat)
    requires i < n && (legacy ==> counter <= 4294966271)
    ensures Sent(legacy, counter, n)[i] ==
            if legacy then (counter + i) % 4294966271 + 1 else (counter + i) % 0x1_0000_0000
    decreases n
  {
    if i > 0 {
      var next := NextCounter(legacy, counter);
      assert Sent(legacy, counter, n)[i] == Sent(legacy, next, n - 1)[i - 1];
      SentNumbers(legacy, next, n - 1, i - 1);
      hide Sent;
      NextShifts(counter, i);
    }
  }

  lemma NextShifts(counter: U32, i: nat)
    requires i > 0
    ensures counter <= 4294966271 ==> (NextCounter(true, counter) + (i - 1)) % 4294966271 == (counter + i) % 4294966271
    ensures (NextCounter(false, counter) + (i - 1)) % 0x1_0000_0000 == (counter + i) % 0x1_0000_0000
  {
  }

  /** The full scheme only accepts runs that count up modulo 2^32. */
  lemma {:induction false} AcceptedIsConsecutive(last: U32, numbers: seq<U32>, i: nat)
    requires AcceptsAll(false, last, numbers) && i < |numbers|
    ensures numbers[i] == (last + 1 + i) % W32
    decreases i
  {
    if i > 0 {
      AcceptedIsConsecutive(numbers[0], numbers[1..], i - 1);
      assert numbers[i] == (numbers[0] + 1 + (i - 1)) % W32;
      WrapSum(last, i);
    } else {
      WrapSum(last, 0);
    }
  }

  lemma WrapSum(last: U32, i: nat)
    ensures (Succ(last) + i) % W32 == (last + 1 + i) % W32
  {
  }

  /** The legacy scheme leaves the count only at its end, and lands below 1024. */
  lemma {:induction false} LegacyDepartures(last: U32, numbers: seq<U32>, i: nat)
    requires AcceptsAll(true, last, numbers) && i < |numbers|
    ensures var before := if i == 0 then last else numbers[i - 1];
            numbers[i] != Succ(before) ==> ROLLOVER <= before < W32 - 1 && numbers[i] < 1024
    decreases i
  {
    if i > 0 { LegacyDepartures(numbers[0], numbers[1..], i - 1); }
  }

  /** In the full scheme a number only comes back after all 2^32 numbers were used. */
  lemma NoEarlyRepeat(last: U32, numbers: seq<U32>, i: nat, j: nat)
    requires AcceptsAll(false, last, numbers) && i < j < |numbers| && numbers[i] == numbers[j]
    ensures j - i >= W32
  {
    AcceptedIsConsecutive(last, numbers, i);
    AcceptedIsConsecutive(last, numbers, j);
  }
}
