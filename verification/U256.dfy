/** Checked uint256 arithmetic, the base of every quote. */
module U256 {
  import opened Arith

  const MAX_U256: int := 0xFFFFFFFF_FFFFFFFF_FFFFFFFF_FFFFFFFF_FFFFFFFF_FFFFFFFF_FFFFFFFF_FFFFFFFF
  const MAX_U160: int := 0xFFFFFFFF_FFFFFFFF_FFFFFFFF_FFFFFFFF_FFFFFFFF
  const Q96: int := 0x1_00000000_00000000_00000000
  const Q128: int := 0x1_00000000_00000000_00000000_00000000

  /** Why a quote, or a piece of its arithmetic, was refused. */
  datatype Error =
    | Overflow
    | Underflow
    | DivisionByZero
    | InvalidInput
    | InvalidFee
    | NoLiquidity
    | NoConvergence
    | TickOutOfRange
    | SqrtOverflow
    | Overconsumed
    | InputNotConsumed
    | PairNotInPool
    | UnsupportedKind

  datatype Result<+T> = Ok(value: T) | Err(error: Error) {
    predicate IsFailure() { Err? }
    function PropagateFailure<U>(): Result<U>
      requires Err?
    {
      Err(error)
    }
    function Extract(): T
      requires Ok?
    {
      value
    }
    /** The same failure reported under another name. */
    function OrElse(e: Error): Result<T> {
      if Ok? then this else Err(e)
    }
  }

  predicate IsU256(v: int) { 0 <= v <= MAX_U256 }

  predicate PositiveU256(v: int) { 0 < v <= MAX_U256 }

  /** A value that the arithmetic has produced, kept only when it fits. */
  function Checked(v: int): Result<int> {
    if IsU256(v) then Ok(v) else Err(Overflow)
  }

  function Add(a: int, b: int): Result<int> {
    if !IsU256(a) || !IsU256(b) then Err(Overflow) else Checked(a + b)
  }

  function Sub(a: int, b: int): Result<int> {
    if !IsU256(a) || !IsU256(b) then Err(Overflow)
    else if a < b then Err(Underflow)
    else Ok(a - b)
  }

  function Mul(a: int, b: int): Result<int> {
    if !IsU256(a) || !IsU256(b) then Err(Overflow) else Checked(a * b)
  }

  function DivDown(a: int, b: int): Result<int> {
    if !IsU256(a) || !IsU256(b) then Err(Overflow)
    else if b == 0 then Err(DivisionByZero)
    else Ok(a / b)
  }

  function DivUp(a: int, b: int): Result<int> {
    if !IsU256(a) || !IsU256(b) then Err(Overflow)
    else if b == 0 then Err(DivisionByZero)
    else Checked(CeilDiv(a, b))
  }

  /** Full-precision product, then the quotient rounded down. */
  function MulDiv(a: int, b: int, denominator: int): Result<int> {
    if !IsU256(a) || !IsU256(b) || !IsU256(denominator) || denominator <= 0 then Err(InvalidInput)
    else
      assert a * b >= 0;
      Checked((a * b) / denominator)
  }

  /** Full-precision product, then the quotient rounded up. */
  function MulDivUp(a: int, b: int, denominator: int): Result<int> {
    if !IsU256(a) || !IsU256(b) || !IsU256(denominator) || denominator <= 0 then Err(InvalidInput)
    else
      assert a * b >= 0;
      Checked(CeilDiv(a * b, denominator))
  }

  lemma Exponent128() returns (k: nat)
    ensures k == 128 && Pow2(k) == Q128
  {
    k := Doubled(8, 256);
    k := Doubled(k, 0x1_0000);
    k := Doubled(k, 0x1_0000_0000);
    k := Doubled(k, 0x1_0000_0000_0000_0000);
  }

  lemma Exponent256() returns (k: nat)
    ensures k == 256 && Pow2(k) == MAX_U256 + 1
  {
    k := Exponent128();
    k := Doubled(k, Q128);
  }
}
