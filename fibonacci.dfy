/** The sample workload: the `Fibonacci` tool and its recursive helper `FibonacciAux`. */
module FibonacciTool {
  import opened Comm

  /** The tool class name the client asks for. */
  const FIBONACCI_CLASS := "appserver.job.impl.Fibonacci"

  /** The largest argument the client sends. */
  const MAX_CLIENT_ARGUMENT: int32 := 46

  /** The Fibonacci numbers over the unbounded integers: the reference the 32-bit
      computation is compared with. */
  function Fib(n: nat): (r: nat)
  {
    if n < 2 then n else Fib(n - 1) + Fib(n - 2)
  }

  lemma {:induction false} FibMonotone(m: nat, n: nat)
    requires m <= n
    ensures Fib(m) <= Fib(n)
    decreases n
  {
    if m < n {
      FibMonotone(m, n - 1);
    }
  }

  /** Fib(45) and Fib(46), evaluated one step of the recurrence at a time. */
  lemma Fib46()
    ensures Fib(45) == 1134903170 && Fib(46) == 1836311903
  {
    assert Fib(2) == 1;
    assert Fib(3) == 2;
    assert Fib(4) == 3;
    assert Fib(5) == 5;
    assert Fib(6) == 8;
    assert Fib(7) == 13;
    assert Fib(8) == 21;
    assert Fib(9) == 34;
    assert Fib(10) == 55;
    assert Fib(11) == 89;
    assert Fib(12) == 144;
    assert Fib(13) == 233;
    assert Fib(14) == 377;
    assert Fib(15) == 610;
    assert Fib(16) == 987;
    assert Fib(17) == 1597;
    assert Fib(18) == 2584;
    assert Fib(19) == 4181;
    assert Fib(20) == 6765;
    assert Fib(21) == 10946;
    assert Fib(22) == 17711;
    assert Fib(23) == 28657;
    assert Fib(24) == 46368;
    assert Fib(25) == 75025;
    assert Fib(26) == 121393;
    assert Fib(27) == 196418;
    assert Fib(28) == 317811;
    assert Fib(29) == 514229;
    assert Fib(30) == 832040;
    assert Fib(31) == 1346269;
    assert Fib(32) == 2178309;
    assert Fib(33) == 3524578;
    assert Fib(34) == 5702887;
    assert Fib(35) == 9227465;
    assert Fib(36) == 14930352;
    assert Fib(37) == 24157817;
    assert Fib(38) == 39088169;
    assert Fib(39) == 63245986;
    assert Fib(40) == 102334155;
    assert Fib(41) == 165580141;
    assert Fib(42) == 267914296;
    assert Fib(43) == 433494437;
    assert Fib(44) == 701408733;
    assert Fib(45) == 1134903170;
    assert Fib(46) == 1836311903;
  }

  /** Congruence modulo 2^32 is kept by addition and is transitive: the step from
      two wrapped summands to their wrapped sum. */
  lemma CongruentSum(x: int, a: int, y: int, b: int, r: int)
    requires (x - a) % 0x1_0000_0000 == 0 && (y - b) % 0x1_0000_0000 == 0
    requires (a + b - r) % 0x1_0000_0000 == 0
    ensures (x + y - r) % 0x1_0000_0000 == 0
  {
  }

  /** The helper built around one `Integer` (None stands for `null`). */
  class FibonacciAux {
    const number: Option<int32>

    constructor (number: Option<int32>)
      ensures this.number == number
    {
      this.number := number;
    }

    /** `fibonacci`, computed in Java's 32-bit `int`. The recursion reaches a base case
        only from a non-negative argument. Whatever wrap-around happens on the way, the
        result agrees with the mathematical Fibonacci number modulo 2^32. */
    static function Fibonacci(n: int32): (r: int32)
      requires n >= 0
      ensures (Fib(n as nat) - r as int) % 0x1_0000_0000 == 0
      decreases n
    {
      if n == 0 then 0
      else if n == 1 then 1
      else
        var a, b := Fibonacci(n - 1), Fibonacci(n - 2);
        var r := Wrap(a as int + b as int);
        CongruentSum(Fib(n as nat - 1), a as int, Fib(n as nat - 2), b as int, r as int);
        r
    }

    /** `getResult`: `fibonacci` of the stored number. Unboxing a `null` number throws;
        a negative number recurses until the stack is exhausted. */
    function GetResult(): (r: Outcome<int32>)
      ensures number.None? ==> r == Threw(NullPointerException)
      ensures number.Some? && number.value < 0 ==> r == Threw(StackOverflowError)
      ensures number.Some? && 0 <= number.value <= MAX_CLIENT_ARGUMENT ==>
                r.Returned? && r.value as int == Fib(number.value as nat)
    {
      match number
      case None => Threw(NullPointerException)
      case Some(n) =>
        if n < 0 then Threw(StackOverflowError)
        else if n <= MAX_CLIENT_ARGUMENT then FibonacciExact(n); Returned(Fibonacci(n))
        else Returned(Fibonacci(n))
    }
  }

  /** Up to the largest argument the client sends, the 32-bit computation never
      overflows and yields the mathematical Fibonacci number. */
  lemma {:induction false} FibonacciExact(n: int32)
    requires 0 <= n <= MAX_CLIENT_ARGUMENT
    ensures FibonacciAux.Fibonacci(n) as int == Fib(n as nat)
    decreases n
  {
    if n >= 2 {
      FibonacciExact(n - 1);
      FibonacciExact(n - 2);
      FibMonotone(n as nat, 46);
      Fib46();
    }
  }

  /** One past the client's range the 32-bit sum wraps around: Fib(47) exceeds
      2^31 - 1, so `fibonacci(47)` comes out negative. */
  lemma FirstOverflow(n: int32)
    requires n == MAX_CLIENT_ARGUMENT + 1
    ensures Fib(n as nat) > 0x7fff_ffff
    ensures FibonacciAux.Fibonacci(n) as int == Fib(n as nat) - 0x1_0000_0000
  {
    Fib46();
    assert Fib(n as nat) == 2971215073;
    WrappedOnce(Fib(n as nat), FibonacciAux.Fibonacci(n) as int);
  }

  /** A 32-bit value congruent modulo 2^32 to a number just above the `int` range is
      that number less 2^32. */
  lemma WrappedOnce(x: int, r: int)
    requires 0x8000_0000 <= x < 0x1_8000_0000 && -0x8000_0000 <= r < 0x8000_0000
    requires (x - r) % 0x1_0000_0000 == 0
    ensures r == x - 0x1_0000_0000
  {
  }

  /** What `Fibonacci.go` returns for `parameters`: the `(Integer)` cast fails on any
      other object, otherwise the helper's result boxed as an `Integer`. */
  function FibonacciGo(parameters: Value): (r: Outcome<Value>)
    ensures parameters.OtherObject? ==> r == Threw(ClassCastException)
    ensures parameters.NullValue? ==> r == Threw(NullPointerException)
    ensures parameters.IntValue? && parameters.i < 0 ==> r == Threw(StackOverflowError)
    ensures parameters.IntValue? && 0 <= parameters.i <= MAX_CLIENT_ARGUMENT ==>
              r.Returned? && r.value.IntValue? && r.value.i as int == Fib(parameters.i as nat)
    ensures r.Returned? ==> r.value.IntValue?
  {
    match parameters
    case OtherObject(_) => Threw(ClassCastException)
    case NullValue => Threw(NullPointerException)
    case IntValue(n) =>
      if n < 0 then Threw(StackOverflowError)
      else if n <= MAX_CLIENT_ARGUMENT then FibonacciExact(n); Returned(IntValue(FibonacciAux.Fibonacci(n)))
      else Returned(IntValue(FibonacciAux.Fibonacci(n)))
  }

  /** The `Fibonacci` tool. Its `helper` field is replaced on every call. */
  class Fibonacci {
    var helper: FibonacciAux?

    constructor ()
      ensures helper == null
    {
      helper := null;
    }

    /** `go`: builds a fresh helper for the argument and returns its result. The result
        depends on the argument alone, never on an earlier call. */
    method Go(parameters: Value) returns (r: Outcome<Value>)
      modifies this
      ensures r == FibonacciGo(parameters)
      ensures parameters.OtherObject? ==> helper == old(helper)
      ensures !parameters.OtherObject? ==>
                helper != null && fresh(helper) &&
                helper.number == (if parameters.IntValue? then Some(parameters.i) else None)
    {
      if parameters.OtherObject? {
        return Threw(ClassCastException);
      }
      helper := new FibonacciAux(if parameters.IntValue? then Some(parameters.i) else None);
      var result := helper.GetResult();
      match result
      case Returned(v) =>
        r := Returned(IntValue(v));
      case Threw(e) =>
        r := Threw(e);
    }
  }
}
