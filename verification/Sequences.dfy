/**
 Wrapping fixed-width identifiers (components/sequences/local.go:11-46, components/sequences/redis.go:43-111).

 Next runs under a mutex or as one script, so any number of callers see one sequence of steps. The largest value is
 computed in floating point, which is exact up to 15 digits.
 */
module Sequences {
  import opened Division
  import opened Strings
  import opened Wrappers

  // ----- The counter -----

  function Pow10(n: nat): (p: nat)
    ensures p >= 1 && (n >= 1 ==> p >= 10)
  {
    if n == 0 then 1 else 10 * Pow10(n - 1)
  }

  /** One step: wrap first when the end is reached, then count. */
  function Step(current: int, max: nat): int {
    (if current >= max then 0 else current) + 1
  }

  function Advance(current: int, max: nat, steps: nat): int {
    if steps == 0 then current else Step(Advance(current, max, steps - 1), max)
  }

  lemma ModOfNext(a: nat, m: nat)
    requires m > 0
    ensures (a + 1) % m == if a % m == m - 1 then 0 else a % m + 1
  {
    var q, r := a / m, a % m;
    if r == m - 1 {
      Remainder(a + 1, m, q + 1, 0);
    } else {
      Remainder(a + 1, m, q, r + 1);
    }
  }

  /** The first number from a on with a given remainder. */
  lemma NextWithRemainder(a: nat, m: nat, r: nat) returns (gap: nat)
    requires r < m
    ensures gap < m && (a + gap) % m == r
  {
    var q, was := a / m, a % m;
    if was <= r {
      gap := r - was;
      Remainder(a + gap, m, q, r);
    } else {
      gap := r - was + m;
      Remainder(a + gap, m, q + 1, r);
    }
  }

  lemma SameQuotient(a: nat, b: nat, m: nat)
    requires m > 0 && a < b && a / m == b / m
    ensures a % m < b % m
  {
    assert a == a / m * m + a % m && b == b / m * m + b % m;
  }

  /** Where the counter stands after any number of steps. */
  lemma {:induction false} AdvanceWraps(current: nat, max: nat, steps: nat)
    requires current <= max && max > 0 && steps > 0
    ensures Advance(current, max, steps) == (current + steps - 1) % max + 1
  {
    if steps == 1 {
      if current == max {
        Remainder(current, max, 1, 0);
      } else {
        Remainder(current, max, 0, current);
      }
    } else {
      AdvanceWraps(current, max, steps - 1);
      ModOfNext(current + steps - 2, max);
    }
  }

  lemma SameRemainderIff(a: nat, b: nat, m: nat)
    requires m > 0 && a <= b
    ensures a % m == b % m <==> (b - a) % m == 0
  {
    var q, r := a / m, a % m;
    var p, s := (b - a) / m, (b - a) % m;
    assert b == (q + p) * m + (r + s);
    if r + s < m {
      Remainder(b, m, q + p, r + s);
    } else {
      assert b == (q + p + 1) * m + (r + s - m);
      Remainder(b, m, q + p + 1, r + s - m);
    }
  }

  // ----- Decimal numerals -----

  function Digit(d: nat): char
    requires d < 10
  {
    '0' + d as char
  }

  function Decimal(v: nat): (s: string)
    ensures s != ""
  {
    if v < 10 then [Digit(v)] else Decimal(v / 10) + [Digit(v % 10)]
  }

  function Zeros(n: nat): (s: string)
    ensures |s| == n
  {
    if n == 0 then "" else ['0'] + Zeros(n - 1)
  }

  function Missing(length: nat, width: nat): nat {
    if length < width then width - length else 0
  }

  /** What %0nd prints: at least width characters, counting a sign. */
  function Format(v: int, width: nat): string {
    if v < 0 then "-" + Zeros(Missing(|Decimal(-v)| + 1, width)) + Decimal(-v)
    else Zeros(Missing(|Decimal(v)|, width)) + Decimal(v)
  }

  ghost predicate AllDigits(s: string) {
    forall i :: 0 <= i < |s| ==> '0' <= s[i] <= '9'
  }

  function Number(s: string): nat
    requires AllDigits(s)
  {
    if s == "" then 0 else 10 * Number(s[..|s| - 1]) + (s[|s| - 1] - '0') as nat
  }

  lemma {:induction false} DecimalReadsBack(v: nat)
    ensures AllDigits(Decimal(v)) && Number(Decimal(v)) == v
  {
    var s := Decimal(v);
    if v >= 10 {
      DecimalReadsBack(v / 10);
      assert s[..|s| - 1] == Decimal(v / 10);
    }
  }

  /** A numeral is as long as its value demands. */
  lemma {:induction false} DecimalLength(v: nat, n: nat)
    requires n >= 1
    ensures |Decimal(v)| <= n <==> v < Pow10(n)
  {
    if v >= 10 && n > 1 {
      DecimalLength(v / 10, n - 1);
    }
  }

  lemma {:induction false} ZerosEnd(n: nat)
    requires n > 0
    ensures Zeros(n) == Zeros(n - 1) + ['0']
  {
    if n > 1 {
      ZerosEnd(n - 1);
    }
  }

  lemma {:induction false} ZerosAreNothing(n: nat)
    ensures AllDigits(Zeros(n)) && Number(Zeros(n)) == 0
  {
    if n > 0 {
      ZerosAreNothing(n - 1);
      ZerosEnd(n);
      assert Zeros(n)[..n - 1] == Zeros(n - 1);
    }
  }

  lemma {:induction false} LeadingZeros(zeros: string, s: string)
    requires AllDigits(zeros) && Number(zeros) == 0 && AllDigits(s)
    ensures AllDigits(zeros + s) && Number(zeros + s) == Number(s)
  {
    if s == "" {
      assert zeros + s == zeros;
    } else {
      var n := |s| - 1;
      LeadingZeros(zeros, s[..n]);
      assert (zeros + s)[..|zeros| + n] == zeros + s[..n];
    }
  }

  /** A formatted value reads back, and has exactly the given width if and only if it is below that power of ten. */
  lemma FormatIsExact(v: nat, width: nat)
    requires width >= 1
    ensures AllDigits(Format(v, width)) && Number(Format(v, width)) == v
    ensures |Format(v, width)| >= width
    ensures |Format(v, width)| == width <==> v < Pow10(width)
  {
    DecimalReadsBack(v);
    DecimalLength(v, width);
    var zeros := Zeros(Missing(|Decimal(v)|, width));
    ZerosAreNothing(|zeros|);
    LeadingZeros(zeros, Decimal(v));
  }

  /** A negative value is printed with a sign, which counts towards the width, before the digits of its magnitude. */
  lemma NegativeFormat(v: int, width: nat) returns (digits: string)
    requires v < 0
    ensures Format(v, width) == "-" + digits && AllDigits(digits) && Number(digits) == -v
    ensures |digits| + 1 == if |Decimal(-v)| + 1 < width then width else |Decimal(-v)| + 1
  {
    var zeros := Zeros(Missing(|Decimal(-v)| + 1, width));
    digits := zeros + Decimal(-v);
    DecimalReadsBack(-v);
    ZerosAreNothing(|zeros|);
    LeadingZeros(zeros, Decimal(-v));
    Associate("-", zeros, Decimal(-v));
  }

  lemma Associate(a: string, b: string, c: string)
    ensures a + b + c == a + (b + c)
  {}

  lemma {:induction false} LessByLast(s: string, c: char, t: string, d: char)
    requires |s| == |t|
    ensures Less(s + [c], t + [d]) <==> Less(s, t) || (s == t && c < d)
  {
    if s != "" {
      assert (s + [c])[1..] == s[1..] + [c] && (t + [d])[1..] == t[1..] + [d];
      assert s == [s[0]] + s[1..] && t == [t[0]] + t[1..];
      LessByLast(s[1..], c, t[1..], d);
    }
  }

  /** Numerals of equal length compare like their values. */
  lemma {:induction false} NumeralsCompare(s: string, t: string)
    requires |s| == |t| && AllDigits(s) && AllDigits(t)
    ensures Less(s, t) <==> Number(s) < Number(t)
    ensures s == t <==> Number(s) == Number(t)
  {
    if s != "" {
      var n := |s| - 1;
      assert s == s[..n] + [s[n]] && t == t[..n] + [t[n]];
      NumeralsCompare(s[..n], t[..n]);
      LessByLast(s[..n], s[n], t[..n], t[n]);
    }
  }

  // ----- The identifiers -----

  function Max(strLen: nat): nat {
    Pow10(strLen) - 1
  }

  /** The identifier that the given call returns, counting from one. */
  function IdAt(current: int, strLen: nat, call: nat): string {
    Format(Advance(current, Max(strLen), call), strLen)
  }

  lemma ValueInRange(current: nat, strLen: nat, call: nat)
    requires strLen >= 1 && current <= Max(strLen) && call >= 1
    ensures 1 <= Advance(current, Max(strLen), call) <= Max(strLen)
  {
    AdvanceWraps(current, Max(strLen), call);
  }

  /** Every identifier has exactly strLen digits. */
  lemma IdsHaveFixedWidth(current: nat, strLen: nat, call: nat)
    requires strLen >= 1 && current <= Max(strLen) && call >= 1
    ensures |IdAt(current, strLen, call)| == strLen && AllDigits(IdAt(current, strLen, call))
    ensures Number(IdAt(current, strLen, call)) == Advance(current, Max(strLen), call)
  {
    ValueInRange(current, strLen, call);
    FormatIsExact(Advance(current, Max(strLen), call), strLen);
  }

  /** Two calls return the same identifier if and only if a multiple of the largest value lies between them, so any
      window of that many calls has distinct identifiers. */
  lemma IdsRepeatIff(current: nat, strLen: nat, i: nat, j: nat)
    requires strLen >= 1 && current <= Max(strLen) && 1 <= i <= j
    ensures IdAt(current, strLen, i) == IdAt(current, strLen, j) <==> (j - i) % Max(strLen) == 0
    ensures i < j < i + Max(strLen) ==> IdAt(current, strLen, i) != IdAt(current, strLen, j)
  {
    var max := Max(strLen);
    IdsHaveFixedWidth(current, strLen, i);
    IdsHaveFixedWidth(current, strLen, j);
    NumeralsCompare(IdAt(current, strLen, i), IdAt(current, strLen, j));
    AdvanceWraps(current, max, i);
    AdvanceWraps(current, max, j);
    SameRemainderIff(current + i - 1, current + j - 1, max);
    if i < j < i + max {
      Remainder(j - i, max, 0, j - i);
    }
  }

  /** Such a window leaves no value out. */
  lemma WindowIsComplete(current: nat, strLen: nat, i: nat, v: nat) returns (call: nat)
    requires strLen >= 1 && current <= Max(strLen) && i >= 1 && 1 <= v <= Max(strLen)
    ensures i <= call < i + Max(strLen) && IdAt(current, strLen, call) == Format(v, strLen)
  {
    var gap := NextWithRemainder(current + i - 1, Max(strLen), v - 1);
    call := i + gap;
    AdvanceWraps(current, Max(strLen), call);
  }

  /** The later of two identifiers is the greater string exactly when its number is greater, and so whenever the
      counter has not wrapped between the calls. */
  lemma OrderUntilWrap(current: nat, strLen: nat, i: nat, j: nat)
    requires strLen >= 1 && current <= Max(strLen) && 1 <= i < j
    ensures Less(IdAt(current, strLen, i), IdAt(current, strLen, j))
       <==> Advance(current, Max(strLen), i) < Advance(current, Max(strLen), j)
    ensures (current + i - 1) / Max(strLen) == (current + j - 1) / Max(strLen)
        ==> Less(IdAt(current, strLen, i), IdAt(current, strLen, j))
  {
    var max := Max(strLen);
    IdsHaveFixedWidth(current, strLen, i);
    IdsHaveFixedWidth(current, strLen, j);
    NumeralsCompare(IdAt(current, strLen, i), IdAt(current, strLen, j));
    if (current + i - 1) / max == (current + j - 1) / max {
      AdvanceWraps(current, max, i);
      AdvanceWraps(current, max, j);
      SameQuotient(current + i - 1, current + j - 1, max);
    }
  }

  // ----- The counter in Redis -----

  const MAX_INT64: int := 0x7fff_ffff_ffff_ffff

  /** What the key holds: nothing, a number, or something that is no number. */
  datatype Counter = Absent | Count(value: int) | Text

  /** An absent key counts as 0. */
  function Held(stored: Counter): int {
    if stored.Count? then stored.value else 0
  }

  predicate CanCount(stored: Counter) {
    !stored.Text? && Held(stored) < MAX_INT64
  }

  datatype SequenceError = NoAnswer | NotANumber | WouldOverflow

  /** INCR refuses what is no number and what would overflow. */
  function Incremented(stored: Counter): Result<int, SequenceError> {
    if stored.Text? then Failure(NotANumber)
    else if Held(stored) == MAX_INT64 then Failure(WouldOverflow)
    else Success(Held(stored) + 1)
  }

  /** Lua holds a number as a double, which has all integers up to 2^53 and rounds those beyond. */
  type Rounding = int -> int

  const EXACT: int := 0x20_0000_0000_0000

  ghost predicate Rounds(round: Rounding) {
    && (forall v :: -EXACT <= v <= EXACT ==> round(v) == v)
    && (forall v :: v > EXACT ==> round(v) >= EXACT)
    && (forall v :: v < -EXACT ==> round(v) <= -EXACT)
  }

  /** The script, which compares and returns the rounded reply of INCR. */
  function ScriptStep(round: Rounding, stored: Counter, max: nat): Result<int, SequenceError> {
    match Incremented(stored)
    case Success(v) => Success(if round(v) > max then 1 else round(v))
    case Failure(e) => Failure(e)
  }

  /** What the key holds after that: 1, or what INCR stored. */
  function Scripted(round: Rounding, stored: Counter, max: nat, calls: nat): Counter {
    if calls == 0 then stored
    else
      var was := Scripted(round, stored, max, calls - 1);
      match Incremented(was)
      case Success(v) => Count(if round(v) > max then 1 else v)
      case Failure(_) => was
  }

  lemma {:induction false} ScriptAdvances(round: Rounding, stored: Counter, max: nat, calls: nat)
    requires Rounds(round) && CanCount(stored) && max < EXACT
    ensures CanCount(Scripted(round, stored, max, calls))
    ensures Held(Scripted(round, stored, max, calls)) == Advance(Held(stored), max, calls)
  {
    if calls > 0 {
      ScriptAdvances(round, stored, max, calls - 1);
    }
  }

  /** Text in the key and the largest integer fail each in its own way, and nothing else fails. */
  lemma ScriptErrors(round: Rounding, stored: Counter, max: nat)
    requires Held(stored) <= MAX_INT64
    ensures ScriptStep(round, stored, max) == Failure(NotANumber) <==> stored == Text
    ensures ScriptStep(round, stored, max) == Failure(WouldOverflow) <==> stored == Count(0x7fff_ffff_ffff_ffff)
    ensures ScriptStep(round, stored, max).Success? <==> stored != Text && stored != Count(0x7fff_ffff_ffff_ffff)
  {}

  lemma {:induction false} StuckCounterSticks(round: Rounding, stored: Counter, max: nat, calls: nat)
    requires !CanCount(stored) && Held(stored) <= MAX_INT64
    ensures Scripted(round, stored, max, calls) == stored
  {
    if calls > 0 {
      StuckCounterSticks(round, stored, max, calls - 1);
    }
  }

  /** From equal starts every call on Redis returns what the local counter counts, unless the key holds no number or the
      largest 64-bit integer, in which case every call fails and the local counter alone goes on, or the count is one that
      a double rounds. */
  lemma {:induction false} LockstepIff(round: Rounding, stored: Counter, max: nat, call: nat)
    requires Rounds(round) && call >= 1 && max < EXACT && Held(stored) <= MAX_INT64
    ensures var count := Advance(Held(stored), max, call);
            ScriptStep(round, Scripted(round, stored, max, call - 1), max) == Success(count) <==> CanCount(stored) && round(count) == count
    ensures !CanCount(stored) ==> ScriptStep(round, Scripted(round, stored, max, call - 1), max).Failure?
  {
    if CanCount(stored) {
      ScriptAdvances(round, stored, max, call - 1);
    } else {
      StuckCounterSticks(round, stored, max, call - 1);
    }
  }

  lemma {:induction false} AdvanceStaysAbove(current: int, max: nat, calls: nat)
    requires -EXACT - 1 <= current <= MAX_INT64 && max < EXACT && calls >= 1
    ensures -EXACT <= Advance(current, max, calls) <= EXACT
  {
    if calls > 1 {
      AdvanceStaysAbove(current, max, calls - 1);
    } else {
      assert Advance(current, max, 0) == current;
    }
  }

  /** From a start of at least -2^53 - 1, and so from every start the local counter can have, nothing is rounded. */
  lemma LockstepFromZero(round: Rounding, stored: Counter, max: nat, call: nat)
    requires Rounds(round) && call >= 1 && max < EXACT && -EXACT - 1 <= Held(stored) <= MAX_INT64
    ensures ScriptStep(round, Scripted(round, stored, max, call - 1), max) == Success(Advance(Held(stored), max, call))
       <==> CanCount(stored)
  {
    LockstepIff(round, stored, max, call);
    AdvanceStaysAbove(Held(stored), max, call);
  }

  // ----- The two generators -----

  class LocalSequence {
    var current: int
    const strLen: nat
    const maxValue: nat

    ghost predicate Valid()
      reads this
    {
      maxValue == Max(strLen) && 0 <= current && (strLen >= 1 ==> current <= maxValue)
    }

    constructor (strLen: nat)
      ensures Valid() && this.strLen == strLen && current == 0
    {
      current, this.strLen, maxValue := 0, strLen, Pow10(strLen) - 1;
    }

    /** The first call from here on, in the numbering of IdAt. */
    method Next() returns (id: string)
      requires Valid()
      modifies this
      ensures Valid() && current == Advance(old(current), maxValue, 1)
      ensures id == IdAt(old(current), strLen, 1)
    {
      if current >= maxValue {
        current := 0;
      }
      current := current + 1;
      assert current == Step(Advance(old(current), maxValue, 0), maxValue);
      id := Format(current, strLen);
    }
  }

  class RedisSequence {
    const round: Rounding
    var stored: Counter
    const strLen: nat
    const maxValue: nat

    ghost predicate Valid()
      reads this
    {
      Rounds(round) && maxValue == Max(strLen) && -MAX_INT64 - 1 <= Held(stored) <= MAX_INT64
    }

    constructor (round: Rounding, stored: Counter, strLen: nat)
      requires Rounds(round) && -MAX_INT64 - 1 <= Held(stored) <= MAX_INT64
      ensures Valid() && this.round == round && this.stored == stored && this.strLen == strLen
    {
      this.round, this.stored, this.strLen, maxValue := round, stored, strLen, Pow10(strLen) - 1;
    }

    method Incr() returns (r: Result<int, SequenceError>)
      modifies this
      ensures r == Incremented(old(stored))
      ensures stored == if r.Success? then Count(r.value) else old(stored)
    {
      if stored.Text? {
        return Failure(NotANumber);
      }
      if Held(stored) == MAX_INT64 {
        return Failure(WouldOverflow);
      }
      stored := Count(Held(stored) + 1);
      r := Success(stored.value);
    }

    /** The script on the server. */
    method Script() returns (r: Result<int, SequenceError>)
      requires Valid()
      modifies this
      ensures Valid()
      ensures r == ScriptStep(round, old(stored), maxValue) && stored == Scripted(round, old(stored), maxValue, 1)
    {
      assert Scripted(round, stored, maxValue, 0) == stored;
      r := Incr();
      if r.Success? {
        var current := round(r.value);
        if current > maxValue {
          stored := Count(1);
          current := 1;
        }
        r := Success(current);
      }
    }

    /** With up to 15 digits, and a counter that does not start far below zero, the identifier is the one that the local
        counter would give. */
    method Next(line: Line) returns (r: Result<string, SequenceError>)
      requires Valid()
      modifies this
      ensures Valid()
      ensures stored == if line.CutBefore? then old(stored) else Scripted(round, old(stored), maxValue, 1)
      ensures !line.Up? ==> r == Failure(NoAnswer)
      ensures line.Up? ==> (r.Success? <==> CanCount(old(stored)))
      ensures r.Success? ==> r.value == Format(ScriptStep(round, old(stored), maxValue).value, strLen)
      ensures r.Success? && maxValue < EXACT && Held(old(stored)) >= -EXACT - 1 ==> r.value == IdAt(Held(old(stored)), strLen, 1)
    {
      if line.CutBefore? {
        return Failure(NoAnswer);
      }
      var current := Script();
      if line.CutAfter? {
        return Failure(NoAnswer);
      }
      if current.Failure? {
        return Failure(current.error);
      }
      assert Scripted(round, old(stored), maxValue, 0) == old(stored);
      if maxValue < EXACT && Held(old(stored)) >= -EXACT - 1 {
        LockstepFromZero(round, old(stored), maxValue, 1);
      }
      r := Success(Format(current.value, strLen));
    }

    method Reset(line: Line) returns (ok: bool)
      modifies this
      ensures stored == (if line.CutBefore? then old(stored) else Count(0)) && ok == line.Up?
    {
      if !line.CutBefore? {
        stored := Count(0);
      }
      return line.Up?;
    }

    method GetCurrent(line: Line) returns (r: Result<int, SequenceError>)
      ensures r == if !line.Up? then Failure(NoAnswer) else if stored.Text? then Failure(NotANumber) else Success(Held(stored))
    {
      if !line.Up? {
        return Failure(NoAnswer);
      }
      match stored
      case Absent => return Success(0);
      case Count(v) => return Success(v);
      case Text => return Failure(NotANumber);
    }
  }
}
