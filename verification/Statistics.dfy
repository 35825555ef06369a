/** Sliding windows of recorded times, and the integer average taken over them. */
module Statistics {
  /** Recording appends a value and drops the oldest once the memory is exceeded. */
  function Push(window: seq<int>, memory: nat, x: int): seq<int> {
    var longer := window + [x];
    if |longer| > memory then longer[1..] else longer
  }

  /** The last `k` values, or all of them if there are fewer. */
  function LastOf(values: seq<int>, k: nat): seq<int> {
    if |values| <= k then values else values[|values| - k..]
  }

  datatype Call = ActTime(millis: int) | ReactTime(millis: int) | TransmitTime(millis: int) | CountMessage

  datatype Stats = Stats(
    memory: nat, actTimes: seq<int>, reactTimes: seq<int>, transmitTimes: seq<int>, messagesReceived: nat)

  function Fresh(memory: nat): Stats {
    Stats(memory, [], [], [], 0)
  }

  function Record(s: Stats, c: Call): Stats {
    match c
    case ActTime(x) => s.(actTimes := Push(s.actTimes, s.memory, x))
    case ReactTime(x) => s.(reactTimes := Push(s.reactTimes, s.memory, x))
    case TransmitTime(x) => s.(transmitTimes := Push(s.transmitTimes, s.memory, x))
    case CountMessage => s.(messagesReceived := s.messagesReceived + 1)
  }

  function RecordAll(s: Stats, calls: seq<Call>): Stats {
    if calls == [] then s
    else Record(RecordAll(s, calls[..|calls| - 1]), calls[|calls| - 1])
  }

  datatype Kind = Act | React | Transmit

  predicate IsOf(c: Call, kind: Kind) {
    match kind
    case Act => c.ActTime?
    case React => c.ReactTime?
    case Transmit => c.TransmitTime?
  }

  /** The values recorded by the calls of one kind, in call order. */
  function Values(calls: seq<Call>, kind: Kind): seq<int> {
    if calls == [] then []
    else
      var init, c := Values(calls[..|calls| - 1], kind), calls[|calls| - 1];
      if IsOf(c, kind) then init + [c.millis] else init
  }

  function Counted(calls: seq<Call>): nat {
    if calls == [] then 0
    else Counted(calls[..|calls| - 1]) + if calls[|calls| - 1].CountMessage? then 1 else 0
  }

  lemma PushIsLast(values: seq<int>, memory: nat, x: int)
    ensures Push(LastOf(values, memory), memory, x) == LastOf(values + [x], memory)
  {
    if |values| >= memory {
      assert (LastOf(values, memory) + [x])[1..] == (values + [x])[|values| + 1 - memory..];
    }
  }

  /** After any sequence of calls, each window holds the last values recorded for it, in order. */
  lemma {:induction false} WindowsSlide(memory: nat, calls: seq<Call>)
    ensures var s := RecordAll(Fresh(memory), calls);
            && s.memory == memory
            && s.actTimes == LastOf(Values(calls, Act), memory)
            && s.reactTimes == LastOf(Values(calls, React), memory)
            && s.transmitTimes == LastOf(Values(calls, Transmit), memory)
            && s.messagesReceived == Counted(calls)
  {
    if calls != [] {
      var init, c := calls[..|calls| - 1], calls[|calls| - 1];
      hide Push, LastOf;
      WindowsSlide(memory, init);
      match c
      case ActTime(x) => PushIsLast(Values(init, Act), memory, x);
      case ReactTime(x) => PushIsLast(Values(init, React), memory, x);
      case TransmitTime(x) => PushIsLast(Values(init, Transmit), memory, x);
      case CountMessage =>
    } else {
      assert RecordAll(Fresh(memory), calls) == Fresh(memory);
    }
  }

  // ---------- The average, on 64-bit words ----------

  const HALF := 0x8000_0000_0000_0000
  const WORD := 0x1_0000_0000_0000_0000

  /** A 64-bit sum wraps around. */
  function Wrap(x: int): int {
    (x + HALF) % WORD - HALF
  }

  function ToUnsigned(x: int): int {
    x % WORD
  }

  function Sum(values: seq<int>): int {
    if values == [] then 0 else Sum(values[..|values| - 1]) + values[|values| - 1]
  }

  /** Dividing a signed sum by an unsigned size divides the sum's unsigned reading. */
  function Average(values: seq<int>): int {
    if values == [] then -1 else Wrap(ToUnsigned(Wrap(Sum(values))) / |values|)
  }

  lemma WrapAdds(a: int, b: int)
    ensures Wrap(Wrap(a) + b) == Wrap(a + b)
  {
    var k := (a + HALF) / WORD;
    assert Wrap(a) == a - k * WORD;
    ModShift(a + b + HALF, k);
  }

  lemma {:induction false} ModShift(x: int, k: int)
    ensures (x - k * WORD) % WORD == x % WORD
    decreases if k < 0 then -k else k
  {
    if k > 0 {
      ModShift(x, k - 1);
    } else if k < 0 {
      ModShift(x, k + 1);
    }
  }

  predicate FitsLong(x: int) {
    -HALF <= x < HALF
  }

  ghost predicate IsFloor(q: int, sum: int, size: nat) {
    size * q <= sum < size * (q + 1)
  }

  lemma {:induction false} ProductGrows(n: nat, q: nat)
    ensures n >= 1 ==> n * q >= q
    ensures n >= 2 ==> n * q >= 2 * q
  {
    if n > 0 {
      ProductGrows(n - 1, q);
      assert n * q == (n - 1) * q + q;
    }
  }

  lemma DivisionBounds(u: int, n: nat)
    requires u >= 0 && n > 0
    ensures 0 <= u / n <= u && IsFloor(u / n, u, n)
    ensures n >= 2 ==> 2 * (u / n) <= u
  {
    var q := u / n;
    assert u == n * q + u % n;
    ProductGrows(n, q);
    assert n * (q + 1) == n * q + n;
  }

  /** How a quotient of 64-bit words reads as a signed word: only a division by one can wrap. */
  lemma QuotientReads(u: int, n: nat)
    requires 0 <= u < WORD && n > 0
    ensures n == 1 ==> Wrap(u / n) == if u < HALF then u else u - WORD
    ensures n > 1 ==> Wrap(u / n) == u / n >= 0
  {
    hide IsFloor;
    DivisionBounds(u, n);
    assert n == 1 ==> u / n == u;
  }

  /**
   For a window whose sum fits a long, the average is the sum divided by the size, rounded down,
   exactly when the sum is not negative or the window holds a single value.
   */
  lemma AverageIsFloor(values: seq<int>)
    requires values != [] && FitsLong(Sum(values))
    ensures IsFloor(Average(values), Sum(values), |values|) <==> Sum(values) >= 0 || |values| == 1
  {
    hide Sum, IsFloor;
    var sum, n := Sum(values), |values|;
    var u := ToUnsigned(sum);
    assert Wrap(sum) == sum && u == if sum < 0 then sum + WORD else sum;
    QuotientReads(u, n);
    DivisionBounds(u, n);
    if n == 1 {
      FloorOfOne(sum);
    } else if sum < 0 {
      NotFloor(u / n, sum, n);
    }
  }

  lemma NotFloor(q: int, sum: int, n: nat)
    requires q >= 0 && sum < 0
    ensures !IsFloor(q, sum, n)
  {
    assert n * q >= 0;
  }

  lemma FloorOfOne(x: int)
    ensures IsFloor(x, x, 1)
  {
  }

  /** The value -1 means that nothing was recorded, or that the one recorded value is -1. */
  lemma MinusOneMeans(values: seq<int>)
    ensures Average(values) == -1 <==> values == [] || (|values| == 1 && Wrap(values[0]) == -1)
  {
    if values != [] {
      QuotientReads(ToUnsigned(Wrap(Sum(values))), |values|);
      if |values| == 1 {
        assert values[..0] == [] && Sum(values) == values[0];
      }
    }
  }

  class StatisticsKeeper {
    const memory: nat
    var actTimes: seq<int>
    var reactTimes: seq<int>
    var transmitTimes: seq<int>
    var messagesReceived: nat

    ghost function Abs(): Stats
      reads this
    {
      Stats(memory, actTimes, reactTimes, transmitTimes, messagesReceived)
    }

    constructor (memory: nat)
      ensures Abs() == Fresh(memory)
    {
      this.memory := memory;
      actTimes, reactTimes, transmitTimes, messagesReceived := [], [], [], 0;
    }

    method RecordActTime(millis: int)
      modifies this
      ensures Abs() == Record(old(Abs()), ActTime(millis))
    {
      actTimes := actTimes + [millis];
      if |actTimes| > memory {
        actTimes := actTimes[1..];
      }
    }

    method RecordReactTime(millis: int)
      modifies this
      ensures Abs() == Record(old(Abs()), ReactTime(millis))
    {
      reactTimes := reactTimes + [millis];
      if |reactTimes| > memory {
        reactTimes := reactTimes[1..];
      }
    }

    method RecordTransmitTime(millis: int)
      modifies this
      ensures Abs() == Record(old(Abs()), TransmitTime(millis))
    {
      transmitTimes := transmitTimes + [millis];
      if |transmitTimes| > memory {
        transmitTimes := transmitTimes[1..];
      }
    }

    method CountMessageReceived()
      modifies this
      ensures Abs() == Record(old(Abs()), CountMessage)
    {
      messagesReceived := messagesReceived + 1;
    }

    /** The summing loop behind the three averages. */
    static method AverageOf(values: seq<int>) returns (r: int)
      ensures r == Average(values)
    {
      if |values| == 0 {
        return -1;
      }
      var total := 0;
      for i := 0 to |values|
        invariant total == Wrap(Sum(values[..i]))
      {
        assert values[..i + 1][..i] == values[..i];
        WrapAdds(Sum(values[..i]), values[i]);
        total := Wrap(total + values[i]);
      }
      assert values[..|values|] == values;
      return Wrap(ToUnsigned(total) / |values|);
    }
  }
}
